# Malim shop API — a verified model

This project models the serverless API behind the Malim online shop.
It covers these parts:

- **CORS helper** (`api/_lib/cors.js`). It picks which request origins are echoed back, writes the headers every API response carries, and answers preflight `OPTIONS` requests.
- **Collage endpoint** (`api/generate-collage.js`). It takes up to three photo URLs and lays the photos out side by side on a 1200×630 canvas.
- **Preview endpoints** (`api/product-preview.js`, `api/facebook-preview.js`). They serve Open Graph HTML to link-preview crawlers and redirect browsers to the single-page app. The page text is escaped for HTML and for JavaScript string literals.
- **Image deletion** (`api/deleteImage.js`). It turns a public R2 URL into an object key and decides whether a delete command is sent.
- **Batch upload** (`api/upload.js`). It stores each uploaded temporary file in R2 under the key the client chose, then reports URLs, keys and warnings.
- **Express server** (`index.js`). It covers the upload file filter, the object-key sanitiser, the configuration check, the parallel upload route and the error handler.
- **Product save** (`api/save-product-final.js`). It covers the Firebase private-key clean-up and the Firestore merge-write handler.

## How the model is built

The model has one module per source file, plus three shared modules:

- `Wrappers` holds `Option`.
- `JsString` holds the JavaScript string operations the code relies on: `includes`, `startsWith`, literal `replace(/x/g, …)`, ASCII `toLowerCase`, `trim`, `split`/`join`, and `||` defaults.
- `Http` holds the query-value shape and a `Response` class with a header map, status code, `ended` flag and JSON body.

Where the source mutates the response object step by step, the model does too:

- `Cors.SetCors` and `Cors.HandlePreflight` mutate a `Response`.
- `Upload.Handle` and `Server.Route` mutate a `Response`.

The uploads and collage drawing loop in the source, so the model uses `while` loops, proved against specification functions. Handlers that only compute an answer are functions returning a reply value: the previews, the image deletion and the product save.

Everything outside the program becomes an input or a result:

- **Inputs:**
  - the URL parser's result;
  - the image loader's result;
  - each storage command's outcome;
  - `Date.now()` and the random suffix;
  - environment variables.
- **Results:**
  - the storage commands the handler issues;
  - the temporary files it removes;
  - the Firestore write.

## Model

| member | source | states |
|---|---|---|
| Cors.FilterTruthy | api/_lib/cors.js:3-8 | a string survives `filter(Boolean)` exactly when it is present and non-empty, and nothing is added |
| Cors.FilterTruthyAppend | api/_lib/cors.js:3-8 | filtering a concatenation filters each part in turn, so the kept strings stay in their original order |
| Cors.FilterTruthySingle | api/_lib/cors.js:3-8 | one value is kept exactly when it is a non-empty string |
| Cors.AllowedOriginsOrder | api/_lib/cors.js:3-8 | the allowed list is the three fixed origins in source order, followed by `CODESPACES_ORIGIN` when it is non-empty |
| Cors.IsAllowed | api/_lib/cors.js:11 | every listed origin is allowed, and an empty list allows nothing |
| Cors.CorsHeaders | api/_lib/cors.js:10-18 | methods and headers are always allowed; origin, `Vary: Origin` and credentials are set exactly when the origin starts with an allowed entry; the echoed origin is the request's own; no other header is written |
| Cors.SetCors | api/_lib/cors.js:2-19 | the headers become the old headers plus the CORS headers for the request's origin; status, body and the ended flag are untouched |
| Cors.WriteCorsHeaders | api/_lib/cors.js:12-18 | the sequence of `setHeader` calls adds exactly the CORS header map |
| Cors.HandlePreflight | api/_lib/cors.js:21-29 | returns true exactly for `OPTIONS`; then the status is 204 and the response is ended; otherwise only the CORS headers change |
| Cors.CorsHeadersIdempotent | api/_lib/cors.js:2-19 | calling `setCORS` twice leaves the same headers as calling it once |
| Cors.NoOriginNotAllowed | api/_lib/cors.js:10-11 | a request without an `Origin` header is never granted an origin |
| Cors.ConfiguredOriginsAllowed | api/_lib/cors.js:3-11 | the GitHub Pages and localhost origins are always allowed; `CODESPACES_ORIGIN` is allowed when it is set |
| Cors.AllowedByPrefix | api/_lib/cors.js:11 | any extension of an allowed origin is allowed as well |
| Cors.LookalikeHostAllowed | api/_lib/cors.js:11 | `https://ecaballerocode.github.io.example.net` is allowed |
| Cors.AppEntryRedundant | api/_lib/cors.js:3-11 | removing the `/malim-app` entry changes no decision |
| GenerateCollage.Take | api/generate-collage.js:14 | `slice(0, n)` is the longest prefix of length at most n |
| GenerateCollage.NonEmpty | api/generate-collage.js:14 | `filter(url => url)` keeps exactly the non-empty strings |
| GenerateCollage.ValidUrls | api/generate-collage.js:12-14 | an array keeps its first three entries, blanks included; a single value counts only when non-empty; no parameter gives no URL |
| GenerateCollage.SlotWidth | api/generate-collage.js:38 | the slots are positive and together span the canvas width exactly |
| GenerateCollage.Slot | api/generate-collage.js:38-41 | slot i starts at a non-negative x, spans the full canvas height from y = 0 and has positive width |
| GenerateCollage.Scale | api/generate-collage.js:44 | the "contain" scale fits the image in its slot and the canvas height, and touches one of the two bounds |
| GenerateCollage.Place | api/generate-collage.js:40-52 | the drawn rectangle has positive width and height |
| GenerateCollage.PlaceFits | api/generate-collage.js:40-53 | each drawn rectangle lies inside its slot and inside the canvas |
| GenerateCollage.PlaceCentred | api/generate-collage.js:49-50 | the drawn image is centred horizontally in its slot and vertically in the canvas |
| GenerateCollage.SlotsTile | api/generate-collage.js:38-41 | slots start at 0, abut one another and end at the canvas width |
| GenerateCollage.SlotInCanvas | api/generate-collage.js:38-41 | every slot lies inside the canvas |
| GenerateCollage.SlotsOrdered | api/generate-collage.js:38-41 | an earlier slot ends at or before the start of a later one |
| GenerateCollage.PlacesDisjoint | api/generate-collage.js:40-53 | images in different slots never overlap |
| GenerateCollage.DrawCollage | api/generate-collage.js:36-53 | the loop draws one rectangle per image, each the placement of that image in its slot, all inside the canvas and pairwise disjoint |
| GenerateCollage.FailureTarget | api/generate-collage.js:67 | the fallback redirect goes to the first URL, or to the placeholder when that is empty |
| GenerateCollage.Handle | api/generate-collage.js:12-69 | no URL redirects to the placeholder; a failed load redirects to the failure target; otherwise a cached JPEG is sent with the collage drawing |
| GenerateCollage.ThreeSquares | api/generate-collage.js:38-50 | three 800×800 photos become 400×400 squares at x = 0, 400 and 800 and y = 115 |
| ProductPreview.IsInvalid | api/product-preview.js:8 | a missing name, image or SPA URL makes the request invalid |
| ProductPreview.InvalidIffMissingOrBlank | api/product-preview.js:8 | the request is invalid exactly when the name, image or SPA URL is missing or blank after `trim` |
| ProductPreview.OgUrl | api/product-preview.js:24 | `og:url` is `selfUrl` when that is non-empty, otherwise `spaUrl` |
| ProductPreview.IsCrawler | api/product-preview.js:27-31 | the lower-cased `User-Agent` (empty when absent) contains one of the listed tokens, lower-cased; its properties are the three lemmas below |
| ProductPreview.NoUserAgentIsNotCrawler | api/product-preview.js:30-31 | a request without a `User-Agent` is treated as a browser |
| ProductPreview.CrawlerCaseInsensitive | api/product-preview.js:27-31 | crawler detection ignores the case of the `User-Agent` |
| ProductPreview.TokenMakesCrawler | api/product-preview.js:27-31 | a `User-Agent` containing any listed token, in any case, is a crawler |
| ProductPreview.EscapeHtml | api/product-preview.js:86-92 | the four chained global replaces `&`, `"`, `<`, `>`; their meaning is stated by the lemmas below |
| ProductPreview.EscapeHtmlAppend | api/product-preview.js:86-92 | the chained replaces escape a concatenation piece by piece |
| ProductPreview.EscapeHtmlChar | api/product-preview.js:86-92 | a single character becomes its entity, or stays itself when it is not special |
| ProductPreview.EscapeHtmlIsRef | api/product-preview.js:86-92 | the four chained replaces equal a one-pass per-character escape |
| ProductPreview.EscapeHtmlSafe | api/product-preview.js:86-92 | escaped text contains no `"`, `<` or `>`, and every `&` in it starts an entity |
| ProductPreview.UnescapeEscapeHtml | api/product-preview.js:86-92 | decoding the four entities gives back the original text |
| ProductPreview.EscapeHtmlPlain | api/product-preview.js:86-92 | text without special characters is unchanged |
| ProductPreview.EscapeForJs | api/product-preview.js:93-95 | the three chained global replaces of backslash and the two quotes; their meaning is stated by the lemmas below |
| ProductPreview.EscapeForJsAppend | api/product-preview.js:93-95 | the JavaScript escape works piece by piece |
| ProductPreview.EscapeForJsChar | api/product-preview.js:93-95 | a backslash or quote gains one backslash; other characters are unchanged |
| ProductPreview.EscapeForJsIsRef | api/product-preview.js:93-95 | the three chained replaces equal a one-pass per-character escape |
| ProductPreview.EscapeForJsQuotes | api/product-preview.js:93-95 | every quote in the output is preceded by a backslash |
| ProductPreview.UnescapeEscapeForJs | api/product-preview.js:93-95 | decoding the three backslash escapes gives back the original |
| ProductPreview.Page | api/product-preview.js:16-66 | the page fields the template fills: title, description (the default when absent or empty), image, `og:url` and canonical, each HTML-escaped, and the redirect target JavaScript-escaped |
| ProductPreview.PageDecodes | api/product-preview.js:16-66 | every HTML field of a valid query's page decodes back to the value it came from, and the redirect target reads back as the SPA URL |
| ProductPreview.PageSafe | api/product-preview.js:43-66 | no HTML field of the page holds `<`, `>` or `"`, and every quote of the redirect target is escaped |
| ProductPreview.Respond | api/product-preview.js:33-82 | HTML content type and cache headers always; a crawler gets 200, the page and `Content-Location`/`Link` naming the SPA URL; a browser gets 302 to the SPA URL and no page |
| ProductPreview.Handle | api/product-preview.js:10-82 | an invalid query redirects (302) to the shop; a crawler gets 200 with the escaped Open Graph page and `Content-Location`/`Link` headers; a browser is redirected (302) to the SPA URL; both carry the HTML content type and cache headers |
| ProductPreview.CrawlerPageRoundTrip | api/product-preview.js:16-24 | every field of the page a crawler receives decodes back to the query value it came from |
| ProductPreview.CrawlerPageSafe | api/product-preview.js:43-66 | no HTML field of the page a crawler receives holds `<`, `>` or `"`, and the redirect target's quotes are all escaped |
| ProductPreview.OgUrlPrefersSelfUrl | api/product-preview.js:24 | a crawler sees the escaped `selfUrl` as `og:url` when one is given |
| FacebookPreview.EscapeHtml | api/facebook-preview.js:83-89 | this endpoint's four chained replaces, with `>` replaced by `>gt;`; stated by the lemmas below |
| FacebookPreview.EscapeHtmlAppend | api/facebook-preview.js:83-89 | the Facebook escape works piece by piece |
| FacebookPreview.EscapeHtmlChar | api/facebook-preview.js:83-89 | per character, `>` becomes `>gt;` and `&`, `"`, `<` become their entities |
| FacebookPreview.EscapeHtmlIsRef | api/facebook-preview.js:83-89 | the chained replaces equal a per-character escape |
| FacebookPreview.EscapeHtmlKeepsGt | api/facebook-preview.js:88 | the output contains a `>` whenever the input does |
| FacebookPreview.GtSurvives | api/facebook-preview.js:88 | `>` is escaped to `>gt;` |
| FacebookPreview.AgreesWithoutGt | api/facebook-preview.js:83-89 | on text without `>` the Facebook escape equals the product-preview escape |
| FacebookPreview.OgUrl | api/facebook-preview.js:23 | `og:url` is always the SPA URL |
| FacebookPreview.Handle | api/facebook-preview.js:9-79 | the product-preview reply shape: an invalid query redirects to the shop; a crawler gets 200, the HTML headers and `Content-Location`/`Link`, and a page with `og:url` taken from `spaUrl`, escaped by this endpoint's own `escapeHtml`; a browser is redirected to the SPA URL |
| FacebookPreview.HandleCorrected | api/facebook-preview.js:42-88 | the handler with the product preview's escape: status and headers are always those of `Handle`, and only the crawler page differs |
| FacebookPreview.SelfUrlIgnored | api/facebook-preview.js:23 | the `selfUrl` parameter never changes the reply, of the source's handler or of the corrected one |
| FacebookPreview.SameReplyAsProduct | api/facebook-preview.js:6-79 | without `selfUrl` the corrected Facebook handler's reply equals the product-preview reply |
| FacebookPreview.GtReachesPage | api/facebook-preview.js:88 | for a product named `>` a crawler gets the title `>gt;` from the source's handler and `&gt;` from the corrected one, so the replies differ |
| FacebookPreview.CorrectedPageSafe | api/facebook-preview.js:42-88 | with the corrected escape no HTML field of the crawler page holds `<`, `>` or `"` |
| FacebookPreview.AgreesOnDefault | api/facebook-preview.js:17 | the default description has no `>`, so both escapes agree on it |
| FacebookPreview.AsWrittenAgreesWithoutGt | api/facebook-preview.js:83-89 | when no field contains `>`, the source's reply equals the corrected one |
| DeleteImage.StripLeadingSlash | api/deleteImage.js:18 | one leading `/` is removed, and only when present |
| DeleteImage.ExtractR2Key | api/deleteImage.js:7-39 | a key is found exactly when the URL parsed; its value is stated by the lemma below |
| DeleteImage.ExtractR2KeyMeaning | api/deleteImage.js:7-39 | for an `r2.dev` URL the key is the pathname without its leading `/`; otherwise, when the pathname has a `/`, it is everything after the first `/`; otherwise it is the pathname itself |
| DeleteImage.SplitTail | api/deleteImage.js:24-30 | the parts after the first one rejoin to the text after the first `/` |
| DeleteImage.KeyOfHierarchicalUrl | api/deleteImage.js:7-39 | for a pathname starting with `/`, every branch gives the pathname minus that slash |
| DeleteImage.LooksLikeR2 | api/deleteImage.js:62 | a URL on a public `.r2.dev` host is treated as an R2 URL |
| DeleteImage.StoreFailure | api/deleteImage.js:101-116 | `NoSuchKey`/`NotFound` gives 404 with the not-found text; anything else gives 500 with the error's message, or "Error interno del servidor" when that is absent or empty |
| DeleteImage.DeleteR2 | api/deleteImage.js:62-116 | an unparsable URL gives 500 "URL inválida"; an empty or blank key gives 400 with no delete; otherwise the delete is sent for the key, answered 200 on success and by `StoreFailure` on failure |
| DeleteImage.DeleteKey | api/deleteImage.js:82-116 | the delete is sent for the key; success gives 200 with the key, a rejection the status and message of `StoreFailure` |
| DeleteImage.Handle | api/deleteImage.js:41-116 | CORS headers on every reply; 204 for `OPTIONS`, 405 for other non-`DELETE` methods, 400 for a missing URL; 200 with nothing deleted for a non-R2 URL; a delete is sent exactly for an R2 URL whose extracted key is not blank, and for that key; success is reported exactly when the delete succeeded; an R2 URL is answered by `DeleteR2`, so an empty or blank key gives 400 and a rejected delete the status and message of `StoreFailure` |
| DeleteImage.UnparsableR2Url | api/deleteImage.js:35-38 | an R2 URL the parser rejects gives 500 "URL inválida" and no delete |
| DeleteImage.PublicUrlDeletesPath | api/deleteImage.js:12-20 | on a public `.r2.dev` URL the object deleted is the pathname without its leading `/` |
| Upload.CollectFiles | api/upload.js:43-47 | no `files` field gives no file; one file gives a list of one; a list is kept |
| Upload.Skipped | api/upload.js:66-71 | a file is skipped exactly when its field name is absent or empty |
| Upload.PublicUrl | api/upload.js:88 | the URL starts with `https://` and ends with `/` and the key |
| Upload.UploadOne | api/upload.js:65-101 | one iteration: a file without a key only adds the skip warning; otherwise the command is sent unless reading failed, a result is added only when storing succeeded, a warning otherwise, and the temporary file is removed |
| Upload.UploadEach | api/upload.js:64-102 | the loop's results, warnings, storage commands and removed temporary paths equal the per-file specification, in file order |
| Upload.EachFileAccounted | api/upload.js:64-102 | every file gives exactly one stored result or one warning |
| Upload.ResultsAreStoredFiles | api/upload.js:76-93 | every result's key is a file's own name whose upload succeeded, and its URL is the public URL of that key |
| Upload.CommandsOnlyForKeyedFiles | api/upload.js:68-85 | commands go only to the configured bucket, are public-read and have non-empty keys; results ≤ commands ≤ cleanups |
| Upload.SkippedFilesNotCleaned | api/upload.js:64-101 | only files that were not skipped have their temporary file removed |
| Upload.ErrorMessage | api/upload.js:125-127 | a message mentioning `maxFileSize` becomes the 4 MB text; otherwise the message or the default is used; the result is never empty |
| Upload.Urls | api/upload.js:116 | the URL list lines up with the results |
| Upload.Keys | api/upload.js:117 | the key list lines up with the results |
| Upload.Summary | api/upload.js:105-120 | no result gives 500 with all warnings; otherwise 200 with URLs and keys, and warnings exactly when there were errors |
| Upload.SuccessReply | api/upload.js:88-120 | in a successful reply each URL is the public URL of its key |
| Upload.Handle | api/upload.js:18-130 | CORS headers always; 204 for `OPTIONS`, 405 for non-`POST`; a parse error gives 500 with its message; an empty upload gives 400; a missing bucket gives 500 with its message; otherwise the loop's commands and cleanups with the summary reply |
| Upload.MissingBucketMessageKept | api/upload.js:53-57 | the missing-bucket error reaches the client unchanged |
| Server.FileFilter | index.js:44-49 | a file passes exactly when the lower-cased name and the MIME type each contain an image-type word; otherwise it is rejected with "Solo se permiten imágenes" |
| Server.FileFilterIgnoresNameCase | index.js:46 | the case of the file name never matters |
| Server.FileFilterMatchesAnywhere | index.js:45-48 | an unanchored pattern accepts `png-notes.txt` sent as `image/png` |
| Server.FileFilterMimeCaseSensitive | index.js:47 | an upper-case MIME type such as `IMAGE/PNG` is rejected |
| Server.Sanitize | index.js:96 | each character outside `[a-zA-Z0-9.-]` becomes `_`; the length is kept |
| Server.SanitizeClean | index.js:96 | a sanitised name contains only safe characters and `_` |
| Server.SanitizeIdempotent | index.js:96 | sanitising twice is sanitising once, and a safe name is unchanged |
| Server.ObjectKey | index.js:96 | the key starts with `malim-` and ends with the sanitised original name |
| Server.PublicUrl | index.js:106 | the URL is the bucket URL, a `/` and the key, so the key can be read back from it |
| Server.ObjectKeyInjective | index.js:96 | at one timestamp, keys with equal-length suffixes coincide only for equal suffixes and equal sanitised names |
| Server.Missing | index.js:65 | a variable is reported exactly when it is unset or empty |
| Server.MissingAppend | index.js:65 | filtering a concatenation filters each part in turn, so the missing names keep the order of `requiredVars` |
| Server.MissingSingle | index.js:65 | one variable is reported exactly when it is unset or empty |
| Server.ValidateEnvVars | index.js:63-74 | the request passes exactly when all five R2 variables are set; otherwise 500 with the missing names, which are `Missing` of the five names in their listed order |
| Server.CommandsOf | index.js:98-103 | one storage command per file |
| Server.UploadAll | index.js:94-118 | the commands are one per file; as multisets, the URLs are those of the files that were sent and the errors those of the files that failed |
| Server.EachFileReported | index.js:94-118 | every file gives exactly one URL or one error |
| Server.UrlsNameSentFiles | index.js:105-107 | every returned URL is the public URL of a file that was sent |
| Server.Route | index.js:77-126 | no files gives 400; otherwise the upload summary with "Subidos n de m archivos" and warnings exactly when errors occurred |
| Server.HandleError | index.js:197-214 | `LIMIT_FILE_SIZE` and `LIMIT_FILE_COUNT` give 400 with their texts; anything else gives 500 with the error's message, hidden in production |
| Server.ProductionHidesMessages | index.js:209-213 | in production no error message leaks |
| Server.FilterRejectionReply | index.js:209-213 | a file the filter rejects is answered with 500 and the filter's message outside production |
| SaveProduct.CleanPrivateKeyAsWritten | api/save-product-final.js:21-23 | the two replaces in the source's order; stated by the lemmas below |
| SaveProduct.CleanPrivateKey | api/save-product-final.js:21-23 | the two replaces with the double-escaped form first; stated by the lemmas below |
| SaveProduct.AsWrittenKeepsBackslash | api/save-product-final.js:21-23 | a double-escaped newline comes out as a backslash and a newline as written, and as a newline when corrected |
| SaveProduct.AsWrittenSecondPassInert | api/save-product-final.js:23 | as written, the second replace never changes anything |
| SaveProduct.FirstPassLeavesNone | api/save-product-final.js:22 | after the first replace no `\n` pair is left |
| SaveProduct.NoEscapeUnchanged | api/save-product-final.js:21-23 | a key with no `\n` pair is unchanged by the source's clean-up |
| SaveProduct.CleanUndoesEscapeOnce | api/save-product-final.js:19-23 | the corrected clean-up turns a key escaped once back into the multi-line key |
| SaveProduct.CleanUndoesEscapeTwice | api/save-product-final.js:19-23 | the corrected clean-up also restores a key escaped twice |
| SaveProduct.CertArgument | api/save-product-final.js:11-31 | the credential handed to `cert` is missing exactly when one of the three variables is missing or empty; otherwise it carries the project, the e-mail and the key with only its `\n` pairs turned into newlines |
| SaveProduct.CertArgumentCorrected | api/save-product-final.js:11-31 | with the corrected clean-up: missing exactly when the source's is, with the same project and e-mail and the corrected key |
| SaveProduct.InitFirebase | api/save-product-final.js:9-38 | initialisation fails exactly when a variable is missing or empty or the SDK rejects the credential; otherwise the SDK holds the credential the source builds |
| SaveProduct.InitRestoresKey | api/save-product-final.js:11-31 | a key stored escaped once reaches `cert` as the original multi-line key |
| SaveProduct.InitKeepsBackslash | api/save-product-final.js:11-31 | a newline stored escaped twice reaches `cert` as a backslash followed by a newline |
| SaveProduct.InitLoadsEscapedKey | api/save-product-final.js:9-38 | when the SDK accepts the multi-line key, a key stored escaped once initialises the module with it |
| SaveProduct.DoubleEscapedKeyFailsToLoad | api/save-product-final.js:9-38 | when the SDK rejects the key with the stray backslash, a key stored escaped twice leaves the module unloaded and no handler answers |
| SaveProduct.InitCorrectedRestoresKey | api/save-product-final.js:11-31 | with the corrected clean-up, a key stored escaped once or twice reaches `cert` as the original key |
| SaveProduct.Handle | api/save-product-final.js:8-79 | no handler exists when a variable is missing or the SDK rejects the credential; CORS headers are always set; 204 for `OPTIONS` with no write; 400 with no write for a missing body or SKU; otherwise a merge write of the body to `productos/<sku>`, answered 200 with the SKU or 500 |
| SaveProduct.AnyMethodWrites | api/save-product-final.js:47-68 | any method other than `OPTIONS`, `GET` included, writes a product that has a SKU |

## Left out

- Network, storage and SDK calls are not modelled. This covers R2/S3, Firestore, `firebase-admin` and `fs`. Their results are inputs, and the commands the code issues are results. For `firebase-admin` the input is its verdict on the credential (`accepts`); it does not say which keys the SDK accepts.
- The canvas library is not modelled: image loading, JPEG encoding and pixel drawing. A loaded image is its width and height; the model also drops zero-size images, for which JavaScript divides by zero.
- `new URL(...)` parsing is not modelled. The pathname, or the parser's failure, is an input to `DeleteImage.Handle`.
- Express, multer and formidable plumbing is left out: the `cors` middleware, the health/root/debug/404 routes, `app.listen`, the multer size and count limits, and formidable's options. multer errors reach `Server.HandleError` as values.
- Logging is left out.
- The literal HTML of the Open Graph page is left out. The page is modelled as its escaped fields, its `og:url` and its redirect target.
- `res.json`'s own `Content-Type` header is not modelled.
- Module-load failure of `api/save-product-final.js`, for a missing variable or a credential the SDK rejects, is modelled by `SaveProduct.Handle` returning `None`. The source throws at load time, so no handler exists.
- `Server.UploadAll`: its contract states the URLs and errors as multisets, not in order. `Promise.all` pushes them in completion order, which the source does not fix.
- `Server.Route`: leaves out the route's `try/catch` (index.js:128-134). Nothing the model runs there can throw.
- `Upload.Handle`: the reading of a temporary file and its removal are modelled only as the failure outcome and the list of removed paths.
- Preview query parameters repeated in the URL (arrays) are not modelled, nor is a JSON body whose fields are not strings.
- `toLowerCase` is modelled for ASCII letters only.
- A string is a sequence of Unicode scalar values, one `char` each; JavaScript strings are sequences of UTF-16 code units. They differ only for characters outside the Basic Multilingual Plane, which JavaScript sees as two units: for such a character `Server.Sanitize` writes one `_` where the non-`u` regex of index.js:96 writes two, and every length in the model counts it once where JavaScript counts two.
- `Date.now()` and `Math.random()` are inputs: one timestamp and one random suffix per file. The suffix has at most nine characters in the source; the model does not constrain its length.
- `ProductPreview.Respond`: does not model Node's check on header values. `setHeader` throws for a value holding a character other than tab, 0x20–0x7E or 0x80–0xFF, and `spaUrl` reaches `Location`, `Content-Location` and `Link` (api/product-preview.js:75-76, 80). The source then fails with a platform error and no page; the model answers as if the value were accepted.
- `ProductPreview.Handle`: the same unchecked header values, through `ProductPreview.Respond`.
- `FacebookPreview.Handle`: the same unchecked header values (api/facebook-preview.js:72-73, 77).
- `FacebookPreview.HandleCorrected`: the same unchecked header values.
- `GenerateCollage.Handle`: the redirect `Location` of api/generate-collage.js:67 is not checked either, so a URL with such a character is modelled as a redirect where the source throws inside its `catch`.
- `GenerateCollage.DrawCollage`: positions are exact reals. The canvas works in floating point.

## Findings

| source | as written | input that shows it | evidently intended | confidence | as-written member | corrected member |
|---|---|---|---|---|---|---|
| api/facebook-preview.js:88 | `>` is replaced by `>gt;`, which still contains `>` | the text `>` in any query field, e.g. `name=a>b` | `&gt;`, as in api/product-preview.js:91 | high, not executed | FacebookPreview.GtReachesPage | FacebookPreview.CorrectedPageSafe |
| api/save-product-final.js:21-23 | `\\n` is replaced before `\\\\n`; the first pass turns a double-escaped `\\n` into a backslash and a newline, so the second pass never matches | FIREBASE_PRIVATE_KEY holding the three characters `\`, `\`, `n` | both forms become one newline, by replacing the double-escaped form first | medium, not executed | SaveProduct.InitKeepsBackslash | SaveProduct.InitCorrectedRestoresKey |

Both findings are modelled twice:

- `FacebookPreview.Handle` uses the escape as written, and `FacebookPreview.HandleCorrected` uses the corrected one. `FacebookPreview.GtReachesPage` shows the two replies differ for a name holding `>`.
- `SaveProduct.CleanPrivateKeyAsWritten` keeps the source's order, and `SaveProduct.CertArgument`, `SaveProduct.InitFirebase` and `SaveProduct.Handle` use it. `SaveProduct.CleanPrivateKey` replaces the double-escaped form first, and `SaveProduct.CertArgumentCorrected` uses it. `SaveProduct.InitKeepsBackslash` shows the stray backslash reaching `cert`, and `SaveProduct.DoubleEscapedKeyFailsToLoad` what follows when the SDK rejects that key.
