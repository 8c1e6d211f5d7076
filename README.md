# A verified model of the `httpHandler` request handler of www.py

www.py is a small teaching web server built on Python's standard
`http.server`. All of its own protocol logic sits in the handler class
`httpHandler`. This project models that logic in Dafny and proves its
properties:

- **Cookie seeding.** Each handler starts with a cookie jar holding an empty
  `_session` cookie for the domain `cloud.fml.org`. `_get_cookie` loads a
  non-empty `Cookie:` request header into that jar and then returns the
  `_session` value, with `""` meaning "absent". Loading applies the
  header's attributes too, and it can raise `CookieError` partway through.
- **Response framing.** `do_POST` sends status 200, `Content-type`, the four
  CORS headers, one `Set-Cookie`, the end of the headers, and then the body.
  `do_OPTIONS` sends status 200, the four CORS headers and the end of the
  headers, with no body.
- **Routing.** `do_POST` starts from the body `"***failed***\n"` and type
  `text/html`. Two independent exact-path checks can replace that body: one
  for `/api/lsform/v1` and one for `/api/upload/v1`.
- **`lsform`.** Renders the decoded form as an HTML table, one row per key,
  with keys in ascending order.
- **`upload`.** Overwrites the single stored artifact with the bytes of the
  `file` field and reports how many bytes it wrote.

Modules, one per component:

| file | module | what it holds |
|---|---|---|
| `options.dfy` | `Options` | `Option`, for "absent" and for "the request raised" |
| `text.dfy` | `Text` | Python's `<` on `str`, and `str(n)` with its inverse |
| `forms.dfy` | `Forms` | the decoded form, `sorted` on its keys, the table rows and page |
| `cookies.dfy` | `Cookies` | the jar, its seeding, `load`, and the `_session` lookup |
| `response.dfy` | `Response` | the response as the ordered list of emitted pieces, plus read-back functions |
| `uploads.dfy` | `Uploads` | what an upload stores and reports, and reading the count back |
| `www.dfy` | `Www` | the `HttpHandler` class, the shared `UploadStore`, and the routing |

How the model represents things:

- **The response.** `HttpHandler.wire` is the ordered list of what the
  handler has emitted. Each `send_response`, `send_header`, `end_headers` and
  `wfile.write` call appends one `Event`. `StatusOf`, `HeadersOf` and
  `BodyOf` read the status, the header pairs and the body back out of that
  list. `Framed` states the order: a status line, then header lines, then one
  end-of-headers marker, then only body text.
- **Cookie library calls.** Parsing a `Cookie:` header and rendering
  `Set-Cookie` text are library work. The model takes them as functions:
  `parse` is an argument of `GetCookie`, and `output` is a field of the
  handler. `parse` splits the header into the pieces `load` applies: each a
  `name=value` pair or an attribute of the cookie named last. `Load` applies
  them in order, as `http.cookies` in CPython 3.12 does (3.12 is the last
  release that still ships the `cgi` module www.py imports):
  - A pair sets that cookie's value and keeps its attributes.
  - A `domain` attribute (in any letter case) replaces the domain of the
    cookie named last.
  - Other reserved attributes leave the jar unchanged.
  - These pieces raise `CookieError`, and the pieces before them stay
    applied:
    - a pair whose name is reserved or is not a legal key;
    - an attribute whose name is not reserved;
    - a pair or an attribute with a control character (`\x00`-`\x1F` or
      `\x7F`) in its name or its value, such as the newline that the quoted
      value `"\012"` decodes to.
  The splitter itself never hands on a reserved name as a pair.
  Loading never removes an entry.
- **The form.** It is already decoded: a map from field name to one `Field`.
  A `Field` holds the text that `form[key].value` formats to, and the bytes of
  an uploaded file when it has one.
- **The artifact.** The uploaded file is `UploadStore.artifact`, a
  `seq<bv8>` shared by all handlers. `open(UPLOADED_FILE, "wb")` empties the
  file before `form["file"]` is looked up. So an upload whose form has no
  uploaded `file` leaves the artifact empty, raises, and sends no response.
  `DoPost` reports that case by returning `false`, with nothing added to
  `wire`.
- **Session ids.** The handler never generates a session id. `do_POST`
  never calls `_get_cookie`, so its `Set-Cookie` header is always rendered
  from the jar that `__init__` seeded.

## Model

| member | source | states |
|---|---|---|
| `Text.LessIrreflexive` | www.py:118 | no key sorts before itself under Python's string order |
| `Text.LessTransitive` | www.py:118 | Python's string order is transitive |
| `Text.LessTotal` | www.py:118 | any two different keys are ordered one way or the other, so `sorted` has a unique answer |
| `Text.Decimal` | www.py:133 | `str(count)` is a non-empty string of digits, with no leading zero unless the count is 0 |
| `Text.DecimalRoundTrip` | www.py:133 | reading the digits of `str(count)` back gives the count |
| `Forms.SortedKeys` | www.py:118 | `sorted(form.keys())` lists every key exactly once, in strictly ascending order; its length is the number of keys |
| `Forms.AscendingCount` | www.py:118 | a strictly ascending list of exactly the keys holds each key once; its length is the number of keys |
| `Forms.SortedKeysUnique` | www.py:118 | any strictly ascending list of exactly the keys equals `sorted(keys)` |
| `Forms.SortKeys` | www.py:118 | the method that sorts returns `SortedKeys` of the key set |
| `Forms.RowsTextStep` | www.py:119-121 | one more loop pass appends exactly that key's row `<tr><td>key<td>value</tr>\n` |
| `Forms.AppendRows` | www.py:119-121 | the loop leaves `msg` as its old value followed by one row per key, in key order |
| `Forms.EmptyFormTable` | www.py:113-124 | an empty form yields only the heading, the open tag and the close tag |
| `Forms.TwoFieldTable` | www.py:112-124 | the form `a=1, b=2` lists `<tr><td>a<td>1</tr>` and then `<tr><td>b<td>2</tr>` |
| `Cookies.InitialJar` | www.py:45-47 | the fresh jar holds only `_session`, with value `""` and domain `cloud.fml.org` |
| `Cookies.AsciiLower` | www.py:68 | lower-cases each letter of an attribute name, keeping the length |
| `Cookies.Step` | www.py:68 | one applied piece: a pair adds its name to the jar, an attribute adds none; the cookie named last is then in the jar |
| `Cookies.Apply` | www.py:68 | applying the pieces in order never removes a cookie; `Load` is `Apply` with no cookie named yet |
| `Cookies.ApplyShape` | www.py:68 | loading raises exactly when a piece is rejected; afterwards the jar holds the old names plus those of the applied pairs, and each cookie has the last value and the last domain given to it, or its old ones |
| `Cookies.LoadKeepsSeed` | www.py:68-70 | after loading, `_session` is still present; its value and domain are the last ones the header gives, or else the old value and `cloud.fml.org`; with no `domain` attribute for it the seeding is kept |
| `Cookies.LoadIdempotent` | www.py:68 | loading the same header twice gives the same jar, and the same error outcome, as loading it once |
| `Cookies.FreshSessionValue` | www.py:66-72 | on a fresh jar, `_get_cookie` returns `""` with no non-empty `Cookie:` header; otherwise it raises when a piece is rejected, and returns the last `_session` value sent (or `""`) when none is; `_session` stays in the jar |
| `Cookies.DomainAttributeApplies` | www.py:68 | `_session=v; Domain=d`, with no control characters in `v` or `d` (for instance `_session=abc; Domain=evil.example`), sets `_session`'s value to `v` and its domain to `d` |
| `Cookies.ControlCharacterRaises` | www.py:68 | a `_session` value holding a control character, such as `"\012"` decoded, raises before that pair or anything after it takes effect |
| `Cookies.IllegalKeyRaises` | www.py:68 | `a=b; c,d=e` sets `a` and then raises |
| `Response.HeaderLines` | www.py:59-62 | one header line is sent per pair |
| `Response.HeaderLinesReadBack` | www.py:58-62 | header lines read back as exactly the pairs sent, with no status and no body |
| `Response.CorsNames` | www.py:58-62 | none of the four CORS headers is a `Content-type` or a `Set-Cookie` |
| `Response.PostResponseShape` | www.py:50-55 | a POST response is framed as: status 200; `Content-type: <type>; charset=utf-8`; the four CORS headers in order; exactly one `Set-Cookie`; end of headers; then the body |
| `Response.OptionsResponseShape` | www.py:79-82 | an OPTIONS response is framed as: status 200 and exactly the four CORS headers; no `Content-type` and no `Set-Cookie`; an empty body |
| `Uploads.UploadedData` | www.py:131 | there are bytes to store exactly when the form has a `file` field that carries an uploaded file |
| `Uploads.ReportRoundTrip` | www.py:133 | the count in `uploaded: N bytes written\n` reads back as N |
| `Uploads.UploadReportsStoredBytes` | www.py:129-133 | after a successful upload the artifact is exactly the uploaded bytes, and the report gives their number |
| `Www.RouteCases` | www.py:92-103 | `/api/lsform/v1` gives the table, `/api/upload/v1` gives the upload outcome, and any other path gives `***failed***\n`; the two paths differ; only a failed upload prevents a response |
| `Www.OutcomesDistinct` | www.py:92-103 | the failure message, an upload report and a table are pairwise different |
| `Www.HttpHandler.constructor` | www.py:44-47 | a new handler has the seeded jar as its cookies and has sent nothing |
| `Www.HttpHandler.SetHeaders` | www.py:50-55 | appends status 200, `Content-type`, the CORS headers, `Set-Cookie` from the current jar, and end of headers |
| `Www.HttpHandler.SetCors` | www.py:58-62 | appends exactly the four CORS headers, in their fixed order |
| `Www.HttpHandler.GetCookie` | www.py:66-72 | loads the header into the jar only when it is non-empty; returns `_session`'s value, `""` when it is absent, or `None` when `load` raised, leaving the pieces applied so far in the jar; never loses `_session` |
| `Www.HttpHandler.SetCookie` | www.py:75-76 | appends one `Set-Cookie` header holding the jar's rendering |
| `Www.HttpHandler.DoOptions` | www.py:79-82 | appends exactly the OPTIONS response |
| `Www.HttpHandler.DoPost` | www.py:89-108 | appends the POST response with the routed body, or nothing when the upload raises; changes the artifact only on the upload path |
| `Www.HttpHandler.LsForm` | www.py:112-124 | returns the table page for the form |
| `Www.HttpHandler.Upload` | www.py:128-133 | the artifact becomes the uploaded bytes whatever it held before, or empty when there is no uploaded `file`; returns the byte-count report, or `None` for the failing lookup |

## Left out

- `do_GET` (www.py:85-86) only calls the library's static-file server, which is not part of this model.
- `wwwpyUtils` and the `__main__` block (www.py:150-205): directory and index bootstrap, `seteuid`, socket binding and `serve_forever` are operating-system I/O.
- The exercise stubs `janken` and `openbd` (www.py:136-146) are not routed. `janken` returns `None`, and `openbd` depends on `json.dumps`.
- Multipart and urlencoded decoding by `cgi.FieldStorage` (www.py:93-97) is library code. The form arrives already decoded. The model does not cover three cases: a decoding failure, a field name sent more than once (for which `.value` fails on a list), or a body that yields no field list at all.
- How `SimpleCookie.load` splits a `Cookie:` header into pairs and attributes, and how `SimpleCookie.output` renders `Set-Cookie`, is library code. The handler receives both as the functions `parse` and `output`. A header that the splitter rejects as a whole is ignored silently by the library; `parse` then gives no pieces. The splitter also unquotes values and drops `$` attributes that come before the first pair.
- `Cookies.Step`: the jar keeps only the `domain` attribute of each cookie, so other reserved attributes such as `path` have no visible effect. Attribute names are lower-cased letter by letter in ASCII, which gives the same answer as `str.lower` for every reserved name. `Morsel.set` also checks the still-quoted form of a value for control characters; the model checks only the decoded value, which `parse` hands on.
- `send_response` in the library also sends `Server` and `Date` headers and a reason phrase, and it skips headers for HTTP/0.9 requests. The model records only the status code.
- The library code that picks `do_OPTIONS` or `do_POST` from the request method, and that answers 501 to unknown methods, is not part of this model.
- The UTF-8 encoding of the body and the real file write at `UPLOADED_FILE` are left out. The body is kept as text and the artifact as an in-memory byte sequence.
- Session-id generation is not modelled, because this code has none. Concurrent uploads to the shared file are not modelled either.
- The `for` loop of `lsform` is written as its own method, `Forms.AppendRows`, which `LsForm` calls. Its effect on `msg` is the same as the inline loop's.
