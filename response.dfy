/** What the handler sends back, as the ordered list of the pieces it emits:
    one event per `send_response`, `send_header`, `end_headers` and
    `wfile.write` call (www.py:50-62, www.py:79-82, www.py:106-108). */
module Response {
  import opened Options

  datatype Event =
    | StatusLine(code: int)
    | HeaderLine(name: string, value: string)
    | EndOfHeaders
    | BodyText(text: string)

  type Header = (string, string)

  const OK := 200

  /** The four headers `_set_cors` sends, in order (www.py:58-62). */
  const CORS_HEADERS: seq<Header> := [
    ("Access-Control-Allow-Origin", "*"),
    ("Access-Control-Allow-Methods", "GET, POST, OPTIONS"),
    ("Access-Control-Allow-Headers", "X-Requested-With, Access-Control-Allow-Origin"),
    ("Access-Control-Allow-Credentials", "true")
  ]

  /** The `Content-type` value for a media type (www.py:52). */
  function ContentTypeValue(mediaType: string): string
  {
    mediaType + "; charset=utf-8"
  }

  /** One `send_header` per pair, in order. */
  function HeaderLines(hs: seq<Header>): (w: seq<Event>)
    ensures |w| == |hs|
  {
    if hs == [] then [] else [HeaderLine(hs[0].0, hs[0].1)] + HeaderLines(hs[1..])
  }

  /** What `_set_headers(type)` sends (www.py:50-55). */
  function HeaderBlock(mediaType: string, setCookie: string): seq<Event>
  {
    [StatusLine(OK), HeaderLine("Content-type", ContentTypeValue(mediaType))]
      + HeaderLines(CORS_HEADERS)
      + [HeaderLine("Set-Cookie", setCookie), EndOfHeaders]
  }

  /** A complete POST response: `_set_headers` and then the body. */
  function PostResponse(mediaType: string, setCookie: string, body: string): seq<Event>
  {
    HeaderBlock(mediaType, setCookie) + [BodyText(body)]
  }

  /** What `do_OPTIONS` sends (www.py:79-82). */
  function OptionsResponse(): seq<Event>
  {
    [StatusLine(OK)] + HeaderLines(CORS_HEADERS) + [EndOfHeaders]
  }

  // Reading a response back.

  /** The first status code sent, if any. */
  function StatusOf(w: seq<Event>): Option<int>
  {
    if w == [] then None
    else if w[0].StatusLine? then Some(w[0].code)
    else StatusOf(w[1..])
  }

  /** The header lines sent, in order. */
  function HeadersOf(w: seq<Event>): seq<Header>
  {
    if w == [] then []
    else (if w[0].HeaderLine? then [(w[0].name, w[0].value)] else []) + HeadersOf(w[1..])
  }

  /** The body bytes written, concatenated. */
  function BodyOf(w: seq<Event>): string
  {
    if w == [] then ""
    else (if w[0].BodyText? then w[0].text else "") + BodyOf(w[1..])
  }

  /** How many headers carry `name`. */
  function CountNamed(hs: seq<Header>, name: string): nat
  {
    if hs == [] then 0 else (if hs[0].0 == name then 1 else 0) + CountNamed(hs[1..], name)
  }

  /** After the status line: header lines, one end-of-headers, then only body. */
  predicate HeaderSection(w: seq<Event>)
  {
    |w| > 0 &&
    match w[0]
    case HeaderLine(_, _) => HeaderSection(w[1..])
    case EndOfHeaders => forall j :: 0 < j < |w| ==> w[j].BodyText?
    case _ => false
  }

  /** A well-framed HTTP response: status, headers, end of headers, body. */
  predicate Framed(w: seq<Event>)
  {
    |w| > 0 && w[0].StatusLine? && HeaderSection(w[1..])
  }

  lemma {:induction false} StatusOfAppend(a: seq<Event>, b: seq<Event>)
    ensures StatusOf(a + b) == if StatusOf(a).Some? then StatusOf(a) else StatusOf(b)
    decreases |a|
  {
    if a != [] {
      assert (a + b)[0] == a[0] && (a + b)[1..] == a[1..] + b;
      StatusOfAppend(a[1..], b);
    } else {
      assert a + b == b;
    }
  }

  lemma {:induction false} HeadersOfAppend(a: seq<Event>, b: seq<Event>)
    ensures HeadersOf(a + b) == HeadersOf(a) + HeadersOf(b)
    decreases |a|
  {
    if a != [] {
      assert (a + b)[0] == a[0] && (a + b)[1..] == a[1..] + b;
      HeadersOfAppend(a[1..], b);
    } else {
      assert a + b == b;
    }
  }

  lemma {:induction false} BodyOfAppend(a: seq<Event>, b: seq<Event>)
    ensures BodyOf(a + b) == BodyOf(a) + BodyOf(b)
    decreases |a|
  {
    if a != [] {
      assert (a + b)[0] == a[0] && (a + b)[1..] == a[1..] + b;
      BodyOfAppend(a[1..], b);
    } else {
      assert a + b == b;
    }
  }

  lemma {:induction false} CountNamedAppend(a: seq<Header>, b: seq<Header>, name: string)
    ensures CountNamed(a + b, name) == CountNamed(a, name) + CountNamed(b, name)
    decreases |a|
  {
    if a != [] {
      assert (a + b)[0] == a[0] && (a + b)[1..] == a[1..] + b;
      CountNamedAppend(a[1..], b, name);
    } else {
      assert a + b == b;
    }
  }

  /** Header lines read back as exactly the pairs sent; they carry no status
      and no body. */
  lemma {:induction false} HeaderLinesReadBack(hs: seq<Header>)
    ensures HeadersOf(HeaderLines(hs)) == hs
    ensures StatusOf(HeaderLines(hs)) == None
    ensures BodyOf(HeaderLines(hs)) == ""
    decreases |hs|
  {
    if hs != [] {
      HeaderLinesReadBack(hs[1..]);
    }
  }

  /** Header lines followed by a valid header section form a valid one. */
  lemma {:induction false} HeaderLinesSection(hs: seq<Header>, rest: seq<Event>)
    requires HeaderSection(rest)
    ensures HeaderSection(HeaderLines(hs) + rest)
    decreases |hs|
  {
    if hs != [] {
      HeaderLinesSection(hs[1..], rest);
      var w := HeaderLines(hs) + rest;
      assert w[0] == HeaderLine(hs[0].0, hs[0].1);
      assert w[1..] == HeaderLines(hs[1..]) + rest;
    } else {
      assert HeaderLines(hs) + rest == rest;
    }
  }

  lemma CorsNames()
    ensures forall h :: h in CORS_HEADERS ==> h.0 != "Content-type" && h.0 != "Set-Cookie"
    ensures CountNamed(CORS_HEADERS, "Content-type") == 0
    ensures CountNamed(CORS_HEADERS, "Set-Cookie") == 0
  {
  }

  /** The status line and `Content-type` header that open a POST response. */
  function Opening(mediaType: string): seq<Event>
  {
    [StatusLine(OK), HeaderLine("Content-type", ContentTypeValue(mediaType))]
  }

  /** The `Set-Cookie` header, the end of headers and the body that close it. */
  function Closing(setCookie: string, body: string): seq<Event>
  {
    [HeaderLine("Set-Cookie", setCookie), EndOfHeaders, BodyText(body)]
  }

  lemma OpeningReadBack(mediaType: string)
    ensures StatusOf(Opening(mediaType)) == Some(OK)
    ensures HeadersOf(Opening(mediaType)) == [("Content-type", ContentTypeValue(mediaType))]
    ensures BodyOf(Opening(mediaType)) == ""
  {
    var w := Opening(mediaType);
    var w1 := [HeaderLine("Content-type", ContentTypeValue(mediaType))];
    assert w[1..] == w1 && w1[1..] == [];
    assert HeadersOf(w1) == [("Content-type", ContentTypeValue(mediaType))];
    assert BodyOf(w1) == "";
  }

  lemma ClosingReadBack(setCookie: string, body: string)
    ensures StatusOf(Closing(setCookie, body)) == None
    ensures HeadersOf(Closing(setCookie, body)) == [("Set-Cookie", setCookie)]
    ensures BodyOf(Closing(setCookie, body)) == body
    ensures HeaderSection(Closing(setCookie, body))
  {
    var w := Closing(setCookie, body);
    var w2 := [BodyText(body)];
    var w1 := [EndOfHeaders] + w2;
    assert w[1..] == w1 && w1[1..] == w2 && w2[1..] == [];
    var none: seq<Event> := [];
    assert HeadersOf(none) == [] && BodyOf(none) == "" && StatusOf(none) == None;
    assert w2 == [BodyText(body)] + none;
    assert body + "" == body;
    assert StatusOf(w2) == None && HeadersOf(w2) == [] && BodyOf(w2) == body;
    assert StatusOf(w1) == None && HeadersOf(w1) == [] && BodyOf(w1) == body;
    assert HeaderSection(w1);
  }

  /** A POST response is well framed: status 200, then `Content-type`, the
      four CORS headers and exactly one `Set-Cookie`, then end of headers,
      and the body after it. */
  lemma PostResponseShape(mediaType: string, setCookie: string, body: string)
    ensures Framed(PostResponse(mediaType, setCookie, body))
    ensures StatusOf(PostResponse(mediaType, setCookie, body)) == Some(OK)
    ensures HeadersOf(PostResponse(mediaType, setCookie, body))
         == [("Content-type", ContentTypeValue(mediaType))] + CORS_HEADERS + [("Set-Cookie", setCookie)]
    ensures CountNamed(HeadersOf(PostResponse(mediaType, setCookie, body)), "Set-Cookie") == 1
    ensures CountNamed(HeadersOf(PostResponse(mediaType, setCookie, body)), "Content-type") == 1
    ensures BodyOf(PostResponse(mediaType, setCookie, body)) == body
  {
    PostResponseReadBack(mediaType, setCookie, body);
    var ct := ("Content-type", ContentTypeValue(mediaType));
    var sc := ("Set-Cookie", setCookie);
    assert [ct] + CORS_HEADERS + [sc] == [ct] + (CORS_HEADERS + [sc]);
    CorsNames();
    CountNamedAppend(CORS_HEADERS, [sc], "Set-Cookie");
    CountNamedAppend(CORS_HEADERS, [sc], "Content-type");
  }

  /** The status, the headers and the body of a POST response, and its
      framing. */
  lemma PostResponseReadBack(mediaType: string, setCookie: string, body: string)
    ensures Framed(PostResponse(mediaType, setCookie, body))
    ensures StatusOf(PostResponse(mediaType, setCookie, body)) == Some(OK)
    ensures HeadersOf(PostResponse(mediaType, setCookie, body))
         == [("Content-type", ContentTypeValue(mediaType))] + (CORS_HEADERS + [("Set-Cookie", setCookie)])
    ensures BodyOf(PostResponse(mediaType, setCookie, body)) == body
  {
    var opening := Opening(mediaType);
    var cors := HeaderLines(CORS_HEADERS);
    var closing := Closing(setCookie, body);
    var w := PostResponse(mediaType, setCookie, body);
    assert w == opening + (cors + closing);
    OpeningReadBack(mediaType);
    ClosingReadBack(setCookie, body);
    HeaderLinesReadBack(CORS_HEADERS);
    StatusOfAppend(opening, cors + closing);
    StatusOfAppend(cors, closing);
    HeadersOfAppend(opening, cors + closing);
    HeadersOfAppend(cors, closing);
    BodyOfAppend(opening, cors + closing);
    BodyOfAppend(cors, closing);
    HeaderLinesSection(CORS_HEADERS, closing);
    assert w[1..] == [opening[1]] + (cors + closing);
  }

  /** An OPTIONS response is well framed: status 200, exactly the four CORS
      headers, no `Content-type`, no `Set-Cookie`, and an empty body. */
  lemma OptionsResponseShape()
    ensures Framed(OptionsResponse())
    ensures StatusOf(OptionsResponse()) == Some(OK)
    ensures HeadersOf(OptionsResponse()) == CORS_HEADERS
    ensures CountNamed(HeadersOf(OptionsResponse()), "Content-type") == 0
    ensures CountNamed(HeadersOf(OptionsResponse()), "Set-Cookie") == 0
    ensures BodyOf(OptionsResponse()) == ""
  {
  }
}
