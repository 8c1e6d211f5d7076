/** The handler's cookie jar (`self.cookie`, an `http.cookies.SimpleCookie`),
    seen abstractly: cookie names bound to a value and a `domain` attribute.
    How the library splits a `Cookie:` header into pairs and attributes, and
    how it renders `Set-Cookie` text, are left to the library; the handler
    receives them as functions. What `load` then does with the pieces, in
    order, is modelled here. */
module Cookies {
  import opened Options

  /** One jar entry: its value and its `domain` attribute ("" when unset). */
  datatype Morsel = Morsel(value: string, domain: string)

  type Jar = map<string, Morsel>

  const SESSION := "_session"
  const COOKIE_DOMAIN := "cloud.fml.org"

  /** The jar holds `_session` with the configured domain. */
  predicate Seeded(jar: Jar)
  {
    SESSION in jar && jar[SESSION].domain == COOKIE_DOMAIN
  }

  /** The jar as `__init__` leaves it (www.py:45-47). */
  function InitialJar(): (jar: Jar)
    ensures Seeded(jar) && jar.Keys == {SESSION}
    ensures jar[SESSION].value == ""
  {
    map[SESSION := Morsel("", COOKIE_DOMAIN)]
  }

  /** The attribute names a morsel accepts, in lower case. */
  const RESERVED: set<string> :=
    {"expires", "path", "comment", "domain", "max-age", "secure", "httponly", "version", "samesite"}

  /** The punctuation a cookie name may contain besides ASCII letters and
      digits. */
  const KEY_PUNCTUATION: string := "!#$%&'*+-.^_`|~:"

  predicate IsKeyChar(c: char)
  {
    'a' <= c <= 'z' || 'A' <= c <= 'Z' || '0' <= c <= '9' || c in KEY_PUNCTUATION
  }

  /** A legal cookie name: one or more key characters. */
  predicate IsLegalKey(key: string)
  {
    |key| > 0 && forall i :: 0 <= i < |key| ==> IsKeyChar(key[i])
  }

  function LowerChar(c: char): char
  {
    if 'A' <= c <= 'Z' then (c as int - 'A' as int + 'a' as int) as char else c
  }

  /** `str.lower` on the letters that occur in attribute names. */
  function AsciiLower(s: string): (r: string)
    ensures |r| == |s|
    ensures forall i :: 0 <= i < |s| ==> r[i] == LowerChar(s[i])
  {
    if s == [] then [] else [LowerChar(s[0])] + AsciiLower(s[1..])
  }

  /** A piece of a `Cookie:` header as the library's parser hands it on:
      a `name=value` pair, or an attribute of the cookie named last. */
  datatype Piece = Pair(key: string, value: string) | Attribute(name: string, value: string)

  /** What loading leaves: the jar, and whether `load` raised `CookieError`
      partway through (the pieces before the failing one stay applied). */
  datatype Loaded = Loaded(jar: Jar, raised: bool)

  /** A control character, which a cookie may not hold. */
  predicate IsControl(c: char)
  {
    c as int < 32 || c as int == 127
  }

  predicate HasControl(s: string)
  {
    exists i :: 0 <= i < |s| && IsControl(s[i])
  }

  /** `load` raises on `piece`: a pair whose name is reserved or not a legal
      key, an attribute of the current cookie that is not a reserved name,
      or either one holding a control character in its name or its value. */
  predicate Rejected(piece: Piece, current: Option<string>)
  {
    match piece
    case Pair(key, value) =>
      AsciiLower(key) in RESERVED || !IsLegalKey(key) || HasControl(key) || HasControl(value)
    case Attribute(name, value) =>
      current.Some? && (AsciiLower(name) !in RESERVED || HasControl(name) || HasControl(value))
  }

  /** The cookie that attributes apply to once `piece` is applied. */
  function Next(piece: Piece, current: Option<string>): Option<string>
  {
    if piece.Pair? then Some(piece.key) else current
  }

  /** The attribute that sets a domain, for `current` = `Some(k)`. */
  predicate SetsDomainOf(piece: Piece, current: Option<string>, k: string)
  {
    piece.Attribute? && current == Some(k) && AsciiLower(piece.name) == "domain"
  }

  /** Applies one piece `load` does not reject: a pair sets that cookie's
      value and keeps its attributes (a new cookie has none), a `domain`
      attribute replaces the current cookie's domain, and other reserved
      attributes leave the jar as it is. */
  function Step(jar: Jar, piece: Piece, current: Option<string>): (r: Jar)
    requires current.Some? ==> current.value in jar
    ensures r.Keys == jar.Keys + (if piece.Pair? then {piece.key} else {})
    ensures Next(piece, current).Some? ==> Next(piece, current).value in r
  {
    match piece
    case Pair(key, value) =>
      jar[key := Morsel(value, if key in jar then jar[key].domain else "")]
    case Attribute(name, value) =>
      if current.Some? && AsciiLower(name) == "domain" then
        jar[current.value := jar[current.value].(domain := value)]
      else jar
  }

  /** Applies `pieces` in order, `current` being the cookie set last; a
      rejected piece stops loading with `CookieError`. */
  function Apply(jar: Jar, pieces: seq<Piece>, current: Option<string>): (r: Loaded)
    requires current.Some? ==> current.value in jar
    ensures jar.Keys <= r.jar.Keys
    decreases |pieces|
  {
    if pieces == [] then Loaded(jar, false)
    else if Rejected(pieces[0], current) then Loaded(jar, true)
    else Apply(Step(jar, pieces[0], current), pieces[1..], Next(pieces[0], current))
  }

  /** `SimpleCookie.load` of a header the library split into `pieces`. */
  function Load(jar: Jar, pieces: seq<Piece>): Loaded
  {
    Apply(jar, pieces, None)
  }

  /** The pieces `load` applies: all of them up to the first rejected one. */
  function Applied(pieces: seq<Piece>, current: Option<string>): (p: seq<Piece>)
    ensures |p| <= |pieces| && p == pieces[..|p|]
    decreases |pieces|
  {
    if pieces == [] || Rejected(pieces[0], current) then []
    else [pieces[0]] + Applied(pieces[1..], Next(pieces[0], current))
  }

  /** The names the pairs among `pieces` give. */
  function Names(pieces: seq<Piece>): set<string>
    decreases |pieces|
  {
    if pieces == [] then {}
    else (if pieces[0].Pair? then {pieces[0].key} else {}) + Names(pieces[1..])
  }

  /** The value the last pair named `k` gives, if any pair does. */
  function LastValue(pieces: seq<Piece>, k: string): Option<string>
    decreases |pieces|
  {
    if pieces == [] then None
    else
      var later := LastValue(pieces[1..], k);
      if later.Some? then later
      else if pieces[0].Pair? && pieces[0].key == k then Some(pieces[0].value)
      else None
  }

  /** The domain the last `domain` attribute of cookie `k` gives, if any. */
  function LastDomain(pieces: seq<Piece>, k: string, current: Option<string>): Option<string>
    decreases |pieces|
  {
    if pieces == [] then None
    else
      var later := LastDomain(pieces[1..], k, Next(pieces[0], current));
      if later.Some? then later
      else if SetsDomainOf(pieces[0], current, k) then Some(pieces[0].value)
      else None
  }

  /** Cookie `k` once the applied pieces `p` are loaded into `jar`: the last
      value and the last domain given for it, or what `jar` held. */
  function Expected(jar: Jar, p: seq<Piece>, current: Option<string>, k: string): Morsel
  {
    var old_ := if k in jar then jar[k] else Morsel("", "");
    Morsel(LastValue(p, k).GetOr(old_.value), LastDomain(p, k, current).GetOr(old_.domain))
  }

  /** One applied piece moves cookie `k` from what `jar` held towards what
      the remaining pieces give it. */
  lemma StepExpected(jar: Jar, piece: Piece, rest: seq<Piece>, current: Option<string>, k: string)
    requires current.Some? ==> current.value in jar
    ensures Expected(Step(jar, piece, current), rest, Next(piece, current), k)
         == Expected(jar, [piece] + rest, current, k)
  {
    assert ([piece] + rest)[0] == piece && ([piece] + rest)[1..] == rest;
  }

  /** Applying a piece `load` accepts, then the rest. */
  lemma ApplyCons(jar: Jar, piece: Piece, rest: seq<Piece>, current: Option<string>)
    requires current.Some? ==> current.value in jar
    requires !Rejected(piece, current)
    ensures Apply(jar, [piece] + rest, current) == Apply(Step(jar, piece, current), rest, Next(piece, current))
  {
    assert ([piece] + rest)[0] == piece && ([piece] + rest)[1..] == rest;
  }

  /** An accepted piece is applied, then whatever of the rest is. */
  lemma AppliedCons(piece: Piece, rest: seq<Piece>, current: Option<string>)
    requires !Rejected(piece, current)
    ensures Applied([piece] + rest, current) == [piece] + Applied(rest, Next(piece, current))
  {
    assert ([piece] + rest)[0] == piece && ([piece] + rest)[1..] == rest;
  }

  /** Loading raises exactly when a piece is rejected; the jar then holds the
      old names and those the applied pairs give, and each cookie its last
      value and last domain. */
  lemma {:induction false} ApplyShape(jar: Jar, pieces: seq<Piece>, current: Option<string>)
    requires current.Some? ==> current.value in jar
    ensures Apply(jar, pieces, current).raised <==> |Applied(pieces, current)| < |pieces|
    ensures Apply(jar, pieces, current).jar.Keys == jar.Keys + Names(Applied(pieces, current))
    ensures forall k :: k in Apply(jar, pieces, current).jar ==>
              Apply(jar, pieces, current).jar[k] == Expected(jar, Applied(pieces, current), current, k)
    decreases |pieces|
  {
    if pieces != [] && !Rejected(pieces[0], current) {
      var piece, rest := pieces[0], pieces[1..];
      var next := Next(piece, current);
      var jar' := Step(jar, piece, current);
      var p := Applied(pieces, current);
      assert pieces == [piece] + rest;
      ApplyCons(jar, piece, rest, current);
      AppliedCons(piece, rest, current);
      assert p[1..] == Applied(rest, next);
      ApplyShape(jar', rest, next);
      forall k | k in Apply(jar, pieces, current).jar
        ensures Apply(jar, pieces, current).jar[k] == Expected(jar, p, current, k)
      {
        StepExpected(jar, piece, p[1..], current, k);
      }
    }
  }

  /** `self.headers.get('Cookie')` is truthy: the header is there and not empty. */
  predicate HasCookieHeader(header: Option<string>)
  {
    header.Some? && header.value != ""
  }

  /** The first half of `_get_cookie` (www.py:67-68). */
  function AfterCookieHeader(jar: Jar, header: Option<string>, parse: string -> seq<Piece>): Loaded
  {
    if HasCookieHeader(header) then Load(jar, parse(header.value)) else Loaded(jar, false)
  }

  /** The value `_get_cookie` finds in the jar, "" standing for absent
      (www.py:69-72). */
  function SessionValue(jar: Jar): string
  {
    if SESSION in jar then jar[SESSION].value else ""
  }

  /** What `_get_cookie` answers: the `_session` value, or `None` when `load`
      raised. */
  function SessionAnswer(jar: Jar, header: Option<string>, parse: string -> seq<Piece>): Option<string>
  {
    var loaded := AfterCookieHeader(jar, header, parse);
    if loaded.raised then None else Some(SessionValue(loaded.jar))
  }

  /** Loading never loses `_session`; it takes the last value and the last
      domain the header gives it, and keeps the old ones otherwise. */
  lemma LoadKeepsSeed(jar: Jar, pieces: seq<Piece>)
    requires Seeded(jar)
    ensures SESSION in Load(jar, pieces).jar
    ensures Load(jar, pieces).jar[SESSION].value
         == LastValue(Applied(pieces, None), SESSION).GetOr(jar[SESSION].value)
    ensures Load(jar, pieces).jar[SESSION].domain
         == LastDomain(Applied(pieces, None), SESSION, None).GetOr(COOKIE_DOMAIN)
    ensures LastDomain(Applied(pieces, None), SESSION, None).None? ==> Seeded(Load(jar, pieces).jar)
  {
    ApplyShape(jar, pieces, None);
  }

  /** Loading the same header twice is loading it once. */
  lemma LoadIdempotent(jar: Jar, pieces: seq<Piece>)
    ensures Load(Load(jar, pieces).jar, pieces) == Load(jar, pieces)
  {
    var once := Load(jar, pieces);
    var twice := Load(once.jar, pieces);
    var p := Applied(pieces, None);
    ApplyShape(jar, pieces, None);
    ApplyShape(once.jar, pieces, None);
    forall k | k in twice.jar
      ensures twice.jar[k] == once.jar[k]
    {
      assert twice.jar[k] == Expected(once.jar, p, None, k);
      if k in jar {
        assert once.jar[k] == Expected(jar, p, None, k);
      }
    }
    assert twice.jar == once.jar;
  }

  /** On a freshly seeded jar `_get_cookie` answers the last `_session` value
      the client sent, "" when none is sent and no non-empty `Cookie:` header
      is there, and raises when the header holds a rejected piece. */
  lemma FreshSessionValue(header: Option<string>, parse: string -> seq<Piece>)
    ensures !HasCookieHeader(header) ==> SessionAnswer(InitialJar(), header, parse) == Some("")
    ensures HasCookieHeader(header) ==>
              var pieces := parse(header.value);
              var p := Applied(pieces, None);
              SessionAnswer(InitialJar(), header, parse)
                == if |p| < |pieces| then None else Some(LastValue(pieces, SESSION).GetOr(""))
    ensures SESSION in AfterCookieHeader(InitialJar(), header, parse).jar
  {
    if HasCookieHeader(header) {
      var pieces := parse(header.value);
      LoadKeepsSeed(InitialJar(), pieces);
      ApplyShape(InitialJar(), pieces, None);
      if |Applied(pieces, None)| == |pieces| {
        assert Applied(pieces, None) == pieces;
      }
    }
  }

  /** `_session` is a legal, unreserved name without control characters. */
  lemma SessionIsPlainKey()
    ensures IsLegalKey(SESSION) && AsciiLower(SESSION) !in RESERVED && !HasControl(SESSION)
  {
    SessionIsLegalKey();
    SessionIsLowerCase();
    SessionHasNoControl();
  }

  lemma SessionIsLegalKey()
    ensures IsLegalKey(SESSION)
  {
    forall i | 0 <= i < |SESSION| ensures IsKeyChar(SESSION[i]) { }
  }

  lemma SessionIsLowerCase()
    ensures AsciiLower(SESSION) == SESSION
  {
  }

  lemma SessionHasNoControl()
    ensures !HasControl(SESSION)
  {
    forall i | 0 <= i < |SESSION| ensures !IsControl(SESSION[i]) { }
  }

  /** `Domain` names the reserved `domain` attribute. */
  lemma DomainIsReserved()
    ensures AsciiLower("Domain") == "domain" && !HasControl("Domain")
  {
    assert !HasControl("Domain") by {
      forall i | 0 <= i < 6 ensures !IsControl("Domain"[i]) { }
    }
  }

  /** A pair `key=value` followed by a `domain` attribute `name=domain`, both
      accepted, sets both the value and the domain of `key`. */
  lemma PairThenDomain(jar: Jar, key: string, value: string, name: string, domain: string)
    requires !Rejected(Pair(key, value), None)
    requires !Rejected(Attribute(name, domain), Some(key)) && AsciiLower(name) == "domain"
    ensures Load(jar, [Pair(key, value), Attribute(name, domain)])
         == Loaded(jar[key := Morsel(value, domain)], false)
  {
    var pair, attribute := Pair(key, value), Attribute(name, domain);
    assert [pair, attribute] == [pair] + [attribute];
    ApplyCons(jar, pair, [attribute], None);
    var jar' := Step(jar, pair, None);
    assert [attribute] == [attribute] + [];
    ApplyCons(jar', attribute, [], Some(key));
    assert Step(jar', attribute, Some(key)) == jar[key := Morsel(value, domain)];
  }

  /** A `Domain` attribute after `_session` replaces the domain the jar gave
      it, as in `_session=abc; Domain=evil.example`. */
  lemma DomainAttributeApplies(jar: Jar, value: string, domain: string)
    requires !HasControl(value) && !HasControl(domain)
    ensures Load(jar, [Pair(SESSION, value), Attribute("Domain", domain)])
         == Loaded(jar[SESSION := Morsel(value, domain)], false)
  {
    SessionIsPlainKey();
    DomainIsReserved();
    PairThenDomain(jar, SESSION, value, "Domain", domain);
  }

  /** A control character in the value, such as the newline that the quoted
      `"\012"` stands for, raises before the pair takes effect. */
  lemma ControlCharacterRaises(jar: Jar, value: string, rest: seq<Piece>)
    requires HasControl(value)
    ensures Load(jar, [Pair(SESSION, value)] + rest) == Loaded(jar, true)
  {
    assert ([Pair(SESSION, value)] + rest)[0] == Pair(SESSION, value);
  }

  /** A name that is not a legal key raises after the pairs before it are set. */
  lemma IllegalKeyRaises()
    ensures Load(InitialJar(), [Pair("a", "b"), Pair("c,d", "e")])
         == Loaded(InitialJar()[("a") := Morsel("b", "")], true)
  {
    assert !IsKeyChar("c,d"[1]);
  }
}
