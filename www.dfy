/** The request handler `httpHandler` of www.py (lines 43-133): cookie
    seeding, response framing, OPTIONS and POST handling, and the `lsform`
    and `upload` routes. */
module Www {
  import opened Options
  import opened Forms
  import opened Cookies
  import opened Response
  import opened Uploads

  const LSFORM_PATH := "/api/lsform/v1"
  const UPLOAD_PATH := "/api/upload/v1"
  const DEFAULT_TYPE := "text/html"
  const FAILED_MESSAGE := "***failed***\n"

  /** The body `do_POST` sends for `path`, or `None` when handling raises
      before anything is sent (www.py:91-103): the default message, replaced
      by each route whose path matches, checked one after the other. */
  ghost function PostMessage(path: string, form: Form): Option<string>
  {
    var message := FAILED_MESSAGE;
    var message := if path == LSFORM_PATH then FormTable(form) else message;
    if path == UPLOAD_PATH then UploadResult(form) else Some(message)
  }

  /** Each route gives its own body and any other path the failure message;
      the two route paths differ, so at most one route runs. */
  lemma RouteCases(path: string, form: Form)
    ensures LSFORM_PATH != UPLOAD_PATH
    ensures path == LSFORM_PATH ==> PostMessage(path, form) == Some(FormTable(form))
    ensures path == UPLOAD_PATH ==> PostMessage(path, form) == UploadResult(form)
    ensures path != LSFORM_PATH && path != UPLOAD_PATH ==> PostMessage(path, form) == Some(FAILED_MESSAGE)
    ensures PostMessage(path, form).None? <==> path == UPLOAD_PATH && UploadedData(form).None?
  {
  }

  /** A client can tell the three outcomes apart by the body alone. */
  lemma OutcomesDistinct(form: Form, count: nat)
    ensures FAILED_MESSAGE != UploadReport(count)
    ensures FAILED_MESSAGE != FormTable(form)
    ensures UploadReport(count) != FormTable(form)
  {
    assert FAILED_MESSAGE[0] == '*';
    assert UploadReport(count)[0] == 'u';
    assert FormTable(form)[0] == '<';
  }

  /** The single uploaded artifact, shared by every request. */
  class UploadStore {
    var artifact: seq<bv8>

    constructor (initial: seq<bv8>)
      ensures artifact == initial
    {
      artifact := initial;
    }
  }

  class HttpHandler {
    /** `self.cookie` */
    var cookie: Jar
    /** Everything sent to the client so far, in order. */
    var wire: seq<Event>
    const store: UploadStore
    /** `SimpleCookie.output(header="")`, the library's `Set-Cookie` text. */
    const output: Jar -> string

    /** `__init__` seeds the jar with an empty `_session` for the configured
        domain (www.py:44-47); nothing is sent yet. */
    constructor (store: UploadStore, output: Jar -> string)
      ensures cookie == InitialJar() && wire == []
      ensures this.store == store && this.output == output
    {
      cookie := InitialJar();
      wire := [];
      this.store := store;
      this.output := output;
    }

    method SendResponse(code: int)
      modifies this`wire
      ensures wire == old(wire) + [StatusLine(code)]
    {
      wire := wire + [StatusLine(code)];
    }

    method SendHeader(name: string, value: string)
      modifies this`wire
      ensures wire == old(wire) + [HeaderLine(name, value)]
    {
      wire := wire + [HeaderLine(name, value)];
    }

    method EndHeaders()
      modifies this`wire
      ensures wire == old(wire) + [EndOfHeaders]
    {
      wire := wire + [EndOfHeaders];
    }

    /** `self.wfile.write(...)` */
    method WriteBody(text: string)
      modifies this`wire
      ensures wire == old(wire) + [BodyText(text)]
    {
      wire := wire + [BodyText(text)];
    }

    /** `_set_headers(type)` (www.py:50-55). */
    method SetHeaders(mediaType: string)
      modifies this`wire
      ensures wire == old(wire) + HeaderBlock(mediaType, output(cookie))
    {
      SendResponse(OK);
      SendHeader("Content-type", ContentTypeValue(mediaType));
      SetCors();
      SetCookie();
      EndHeaders();
    }

    /** `_set_cors` sends the four CORS headers in order (www.py:58-62). */
    method SetCors()
      modifies this`wire
      ensures wire == old(wire) + HeaderLines(CORS_HEADERS)
    {
      SendHeader("Access-Control-Allow-Origin", "*");
      SendHeader("Access-Control-Allow-Methods", "GET, POST, OPTIONS");
      SendHeader("Access-Control-Allow-Headers", "X-Requested-With, Access-Control-Allow-Origin");
      SendHeader("Access-Control-Allow-Credentials", "true");
      assert CORS_HEADERS[1..][1..][1..][1..] == [];
    }

    /** `_get_cookie` (www.py:66-72): loads a non-empty `Cookie:` header
        (split by `parse`) into the jar, then answers the `_session` value,
        "" when the jar has none; `None` stands for the `CookieError` that
        `load` raises, after which the jar keeps the pieces applied so far. */
    method GetCookie(cookieHeader: Option<string>, parse: string -> seq<Piece>) returns (value: Option<string>)
      modifies this`cookie
      ensures cookie == AfterCookieHeader(old(cookie), cookieHeader, parse).jar
      ensures value == SessionAnswer(old(cookie), cookieHeader, parse)
      ensures SESSION in old(cookie) ==> SESSION in cookie
    {
      if cookieHeader.Some? && cookieHeader.value != "" {
        var loaded := Load(cookie, parse(cookieHeader.value));
        cookie := loaded.jar;
        if loaded.raised {
          return None;
        }
      }
      if SESSION in cookie {
        value := Some(cookie[SESSION].value);
      } else {
        value := Some("");
      }
    }

    /** `_set_cookie` sends the jar as one `Set-Cookie` header (www.py:75-76). */
    method SetCookie()
      modifies this`wire
      ensures wire == old(wire) + [HeaderLine("Set-Cookie", output(cookie))]
    {
      SendHeader("Set-Cookie", output(cookie));
    }

    /** `do_OPTIONS` (www.py:79-82). */
    method DoOptions()
      modifies this`wire
      ensures wire == old(wire) + OptionsResponse()
    {
      SendResponse(OK);
      SetCors();
      EndHeaders();
    }

    /** `do_POST` (www.py:89-108). It answers `true` when it sent a response,
        and `false` when the upload route raised before anything was sent. */
    method DoPost(path: string, form: Form) returns (sent: bool)
      modifies this`wire, store
      ensures sent <==> PostMessage(path, form).Some?
      ensures wire == old(wire) + (if sent then PostResponse(DEFAULT_TYPE, output(cookie), PostMessage(path, form).value) else [])
      ensures store.artifact == if path == UPLOAD_PATH then ArtifactAfterUpload(form) else old(store.artifact)
    {
      var mediaType := DEFAULT_TYPE;
      var message := FAILED_MESSAGE;
      if path == LSFORM_PATH {
        message := LsForm(form);
      }
      if path == UPLOAD_PATH {
        var report := Upload(form);
        if report.None? {
          return false;
        }
        message := report.value;
      }
      SetHeaders(mediaType);
      WriteBody(message);
      sent := true;
    }

    /** `lsform` (www.py:112-124): the heading, one row per form key in
        ascending key order, and the table's end. */
    method LsForm(form: Form) returns (msg: string)
      ensures msg == FormTable(form)
    {
      msg := "";
      msg := msg + LIST_HEADING;
      msg := msg + TABLE_OPEN;
      assert msg == LIST_HEADING + TABLE_OPEN;
      var keys := SortKeys(form.Keys);
      SortedKeysInForm(form);
      msg := AppendRows(msg, keys, form);
      msg := msg + TABLE_CLOSE;
    }

    /** `upload` (www.py:128-133): empties the artifact, then stores the
        `file` field's bytes and reports their number; `None` stands for the
        exception raised when the form has no uploaded `file`. */
    method Upload(form: Form) returns (report: Option<string>)
      modifies store
      ensures store.artifact == ArtifactAfterUpload(form)
      ensures report == UploadResult(form)
    {
      store.artifact := [];
      if FILE_FIELD !in form || form[FILE_FIELD].file.None? {
        return None;
      }
      var data := form[FILE_FIELD].file.value;
      store.artifact := data;
      var count := |data|;
      report := Some(UploadReport(count));
    }
  }
}
