/**
 * The server request of the library: an immutable record whose `with*`
 * and `without*` methods clone it and change one field. Headers are a map
 * from name to value; the lookups lowercase the asked-for name, but
 * `withHeader` stores its name and value exactly as given, so the map is
 * only sometimes keyed by lowercase names. The getters of the class are
 * the record's field selectors (`r.httpMethod`, `r.uri`, `r.headers`, ...).
 */
module ServerRequest {
  import opened Php
  import UriValue
  import MessageStream

  /**
   * A stored header value: the list of values `withAddedHeader` builds, or
   * a single string `withHeader` stored without wrapping it.
   */
  datatype HeaderValue = List(vs: seq<string>) | Scalar(s: string)

  /** A PHP array of request parameters (cookies, query, files, parsed body, server). */
  type Bag = map<string, Mixed>

  datatype BaseRequest = BaseRequest(
    httpMethod: string,
    uri: UriValue.Uri,
    headers: map<string, HeaderValue>,
    body: MessageStream.Stream,
    server: Bag,
    cookie: Bag,
    queryParams: Bag,
    uploadedFiles: Bag,
    parsedBody: Bag,
    attributes: map<string, Mixed>,
    protocolVersion: string)

  /** The field a copy-on-write update replaces. */
  datatype Part =
    | MethodP | UriP | HeadersP | BodyP | CookieP | QueryParamsP
    | UploadedFilesP | ParsedBodyP | AttributesP | ProtocolP

  /** `b` agrees with `a` on every field except possibly `p` (the server bag never changes). */
  predicate SameExcept(a: BaseRequest, b: BaseRequest, p: Part) {
    && (p != MethodP ==> a.httpMethod == b.httpMethod)
    && (p != UriP ==> a.uri == b.uri)
    && (p != HeadersP ==> a.headers == b.headers)
    && (p != BodyP ==> a.body == b.body)
    && a.server == b.server
    && (p != CookieP ==> a.cookie == b.cookie)
    && (p != QueryParamsP ==> a.queryParams == b.queryParams)
    && (p != UploadedFilesP ==> a.uploadedFiles == b.uploadedFiles)
    && (p != ParsedBodyP ==> a.parsedBody == b.parsedBody)
    && (p != AttributesP ==> a.attributes == b.attributes)
    && (p != ProtocolP ==> a.protocolVersion == b.protocolVersion)
  }

  // ---------------------------------------------------------------------
  // Whole-field replacements
  // ---------------------------------------------------------------------

  function WithMethod(r: BaseRequest, httpMethod: string): (res: BaseRequest)
    ensures SameExcept(r, res, MethodP) && res.httpMethod == httpMethod
  {
    r.(httpMethod := httpMethod)
  }

  /** `withUri`; its `$preserveHost` flag is ignored by the code and so is absent here. */
  function WithUri(r: BaseRequest, uri: UriValue.Uri): (res: BaseRequest)
    ensures SameExcept(r, res, UriP) && res.uri == uri
  {
    r.(uri := uri)
  }

  function WithProtocolVersion(r: BaseRequest, version: string): (res: BaseRequest)
    ensures SameExcept(r, res, ProtocolP) && res.protocolVersion == version
  {
    r.(protocolVersion := version)
  }

  function WithBody(r: BaseRequest, body: MessageStream.Stream): (res: BaseRequest)
    ensures SameExcept(r, res, BodyP) && res.body == body
  {
    r.(body := body)
  }

  function WithCookieParams(r: BaseRequest, cookies: Bag): (res: BaseRequest)
    ensures SameExcept(r, res, CookieP) && res.cookie == cookies
  {
    r.(cookie := cookies)
  }

  /** Replaces the query bag only; the URI's query string is left alone. */
  function WithQueryParams(r: BaseRequest, query: Bag): (res: BaseRequest)
    ensures SameExcept(r, res, QueryParamsP) && res.queryParams == query && res.uri == r.uri
  {
    r.(queryParams := query)
  }

  function WithUploadedFiles(r: BaseRequest, files: Bag): (res: BaseRequest)
    ensures SameExcept(r, res, UploadedFilesP) && res.uploadedFiles == files
  {
    r.(uploadedFiles := files)
  }

  function WithParsedBody(r: BaseRequest, data: Bag): (res: BaseRequest)
    ensures SameExcept(r, res, ParsedBodyP) && res.parsedBody == data
  {
    r.(parsedBody := data)
  }

  // ---------------------------------------------------------------------
  // Headers
  // ---------------------------------------------------------------------

  /**
   * The shape the lookups assume: every key is lowercase and every value is
   * a list. `withAddedHeader` and `withoutHeader` keep it; `withHeader`
   * keeps it only for a lowercase name and a list value.
   */
  predicate Normalized(headers: map<string, HeaderValue>) {
    forall k :: k in headers ==> IsLower(k) && headers[k].List?
  }

  /**
   * `hasHeader`: some stored key equals the name ignoring ASCII case; in
   * particular a key stored as given, or under the lowercased name, is found.
   */
  predicate HasHeader(r: BaseRequest, name: string)
    ensures name in r.headers ==> HasHeader(r, name)
    ensures Lower(name) in r.headers ==> HasHeader(r, name)
  {
    LowerIdempotent(name);
    assert SameIgnoringCase(name, name);
    exists k :: k in r.headers && SameIgnoringCase(k, name)
  }

  /** Names that differ only in case get the same answer from `hasHeader`. */
  lemma HasHeaderIgnoresCase(r: BaseRequest, a: string, b: string)
    requires SameIgnoringCase(a, b)
    ensures HasHeader(r, a) == HasHeader(r, b)
  {
  }

  /** Under lowercase keys, `hasHeader` is plain membership of the lowercased name. */
  lemma HasHeaderNormalized(r: BaseRequest, name: string)
    requires Normalized(r.headers)
    ensures HasHeader(r, name) <==> Lower(name) in r.headers
  {
    if Lower(name) in r.headers {
      LowerIdempotent(name);
      assert SameIgnoringCase(Lower(name), name);
    }
  }

  /**
   * `getHeader`: the list stored under the lowercased name, or the empty
   * list when that key is absent. A string stored there by `withHeader`
   * violates the declared `array` return type: TypeError.
   */
  function GetHeader(r: BaseRequest, name: string): (res: Result<seq<string>>)
    ensures Lower(name) !in r.headers ==> res == Success([])
    ensures res.Failure? <==> Lower(name) in r.headers && r.headers[Lower(name)].Scalar?
    ensures res.Failure? ==> res.error == TypeError
    ensures res.Success? && Lower(name) in r.headers ==> res.value == r.headers[Lower(name)].vs
  {
    var key := Lower(name);
    if key !in r.headers then Success([])
    else match r.headers[key]
      case List(vs) => Success(vs)
      case Scalar(_) => Failure(TypeError)
  }

  /**
   * `getHeaderLine`: the values joined with ", ", "" when absent; `implode`
   * on a stored string raises TypeError.
   */
  function GetHeaderLine(r: BaseRequest, name: string): (res: Result<string>)
    ensures res.Failure? <==> GetHeader(r, name).Failure?
    ensures res.Failure? ==> res.error == TypeError
    ensures res.Success? ==> res.value == Join(", ", GetHeader(r, name).value)
    ensures Lower(name) !in r.headers ==> res == Success("")
  {
    match GetHeader(r, name)
    case Success(vs) => Success(Join(", ", vs))
    case Failure(e) => Failure(e)
  }

  /** Names that differ only in case get the same header and the same header line. */
  lemma GetHeaderIgnoresCase(r: BaseRequest, a: string, b: string)
    requires SameIgnoringCase(a, b)
    ensures GetHeader(r, a) == GetHeader(r, b)
    ensures GetHeaderLine(r, a) == GetHeaderLine(r, b)
  {
  }

  /** Under lowercase keys and list values, `getHeader` never fails. */
  lemma GetHeaderNormalized(r: BaseRequest, name: string)
    requires Normalized(r.headers)
    ensures GetHeader(r, name).Success? && GetHeaderLine(r, name).Success?
  {
  }

  /** `withHeader`: the entry under the name exactly as given, value unwrapped. */
  function WithHeader(r: BaseRequest, name: string, value: HeaderValue): (res: BaseRequest)
    ensures SameExcept(r, res, HeadersP)
    ensures name in res.headers && res.headers[name] == value
    ensures forall k :: k != name ==> (k in res.headers <==> k in r.headers)
    ensures forall k :: k in r.headers && k != name ==> res.headers[k] == r.headers[k]
  {
    r.(headers := r.headers[name := value])
  }

  /** `withHeader` keeps the lookups' shape only for a lowercase name and a list value. */
  lemma WithHeaderNormalized(r: BaseRequest, name: string, value: HeaderValue)
    requires Normalized(r.headers)
    ensures Normalized(WithHeader(r, name, value).headers) <==> IsLower(name) && value.List?
  {
  }

  /**
   * A header set under a name with a capital letter, when its lowercase form
   * is not stored, is reported present by `hasHeader` but `getHeader`
   * returns nothing for it, whatever case the name is asked in.
   */
  lemma WithHeaderMixedCaseInvisible(r: BaseRequest, name: string, asked: string, value: HeaderValue)
    requires !IsLower(name) && Lower(name) !in r.headers
    requires SameIgnoringCase(asked, name)
    ensures HasHeader(WithHeader(r, name, value), asked)
    ensures GetHeader(WithHeader(r, name, value), asked) == Success([])
  {
    var res := WithHeader(r, name, value);
    assert name in res.headers && SameIgnoringCase(name, asked);
    assert Lower(name) != name;
  }

  /** The values a header argument stands for: a list as is, a string as a one-element list. */
  function Wrap(value: HeaderValue): (vs: seq<string>)
    ensures value.List? ==> vs == value.vs
    ensures value.Scalar? ==> vs == [value.s]
  {
    match value
    case List(vs) => vs
    case Scalar(s) => [s]
  }

  /**
   * What `withHeader` evidently means, given that `hasHeader`, `getHeader`
   * and `getHeaderLine` look names up ignoring case: every stored spelling
   * of the name is replaced by one entry under the lowercased name, holding
   * the wrapped values.
   */
  function WithHeaderIntended(r: BaseRequest, name: string, value: HeaderValue): (res: BaseRequest)
    ensures SameExcept(r, res, HeadersP)
    ensures Normalized(r.headers) ==> Normalized(res.headers)
    ensures HasHeader(res, name)
    ensures GetHeader(res, name) == Success(Wrap(value))
    ensures forall k :: k in r.headers && !SameIgnoringCase(k, name) ==> k in res.headers && res.headers[k] == r.headers[k]
    ensures res.headers.Keys == (set k | k in r.headers && !SameIgnoringCase(k, name)) + {Lower(name)}
  {
    var kept := map k | k in r.headers && !SameIgnoringCase(k, name) :: r.headers[k];
    LowerIdempotent(name);
    assert SameIgnoringCase(Lower(name), name);
    r.(headers := kept[Lower(name) := List(Wrap(value))])
  }

  /**
   * `withAddedHeader`: the wrapped values go after the list stored under the
   * lowercased name, or start a new list there. A string stored there by
   * `withHeader` makes `array_merge` raise TypeError. No other key changes.
   */
  function WithAddedHeader(r: BaseRequest, name: string, value: HeaderValue): (res: Result<BaseRequest>)
    ensures res.Failure? <==> Lower(name) in r.headers && r.headers[Lower(name)].Scalar?
    ensures res.Failure? ==> res.error == TypeError
    ensures res.Success? ==> SameExcept(r, res.value, HeadersP)
    ensures res.Success? ==> res.value.headers.Keys == r.headers.Keys + {Lower(name)}
    ensures res.Success? ==> forall k :: k in r.headers && k != Lower(name) ==> res.value.headers[k] == r.headers[k]
    ensures res.Success? && Lower(name) in r.headers ==>
      res.value.headers[Lower(name)] == List(r.headers[Lower(name)].vs + Wrap(value))
    ensures res.Success? && Lower(name) !in r.headers ==> res.value.headers[Lower(name)] == List(Wrap(value))
  {
    var key := Lower(name);
    if key in r.headers && r.headers[key].Scalar? then Failure(TypeError)
    else
      var earlier := if key in r.headers then r.headers[key].vs else [];
      assert key !in r.headers ==> earlier + Wrap(value) == Wrap(value);
      Success(r.(headers := r.headers[key := List(earlier + Wrap(value))]))
  }

  /** `withAddedHeader` keeps the lookups' shape. */
  lemma WithAddedHeaderNormalized(r: BaseRequest, name: string, value: HeaderValue)
    requires Normalized(r.headers)
    ensures WithAddedHeader(r, name, value).Success?
    ensures Normalized(WithAddedHeader(r, name, value).value.headers)
  {
  }

  /**
   * Reading back an added header: its values are the earlier ones followed
   * by the new ones, and its line is the earlier line, ", ", and the new
   * values joined.
   */
  lemma AddedHeaderLine(r: BaseRequest, name: string, value: HeaderValue)
    requires GetHeader(r, name).Success? && GetHeader(r, name).value != [] && Wrap(value) != []
    ensures WithAddedHeader(r, name, value).Success?
    ensures GetHeader(WithAddedHeader(r, name, value).value, name) == Success(GetHeader(r, name).value + Wrap(value))
    ensures GetHeaderLine(WithAddedHeader(r, name, value).value, name)
         == Success(GetHeaderLine(r, name).value + ", " + Join(", ", Wrap(value)))
  {
    JoinAppend(", ", GetHeader(r, name).value, Wrap(value));
  }

  /** A worked example: X-Foo holding ["a"], then "b" added. */
  lemma AddedHeaderExample(r: BaseRequest)
    requires r.headers == map["x-foo" := List(["a"])]
    ensures WithAddedHeader(r, "X-Foo", Scalar("b")).Success?
    ensures GetHeader(WithAddedHeader(r, "X-Foo", Scalar("b")).value, "X-Foo") == Success(["a", "b"])
    ensures GetHeader(WithAddedHeader(r.(headers := map[]), "X-Foo", Scalar("b")).value, "X-Foo") == Success(["b"])
  {
    assert LowerChar('X') == 'x' && LowerChar('F') == 'f';
    assert Lower("X-Foo") == "x-foo";
    var added := WithAddedHeader(r, "X-Foo", Scalar("b"));
    assert added.value.headers["x-foo"] == List(["a"] + ["b"]);
    assert ["a"] + ["b"] == ["a", "b"];
    assert GetHeader(added.value, "X-Foo") == Success(["a", "b"]);
    var created := WithAddedHeader(r.(headers := map[]), "X-Foo", Scalar("b"));
    assert created.Success? && created.value.headers["x-foo"] == List(["b"]);
    assert GetHeader(created.value, "X-Foo") == Success(["b"]);
  }

  /** `withoutHeader`: exactly the lowercased name is removed; absent, nothing changes. */
  function WithoutHeader(r: BaseRequest, name: string): (res: BaseRequest)
    ensures SameExcept(r, res, HeadersP)
    ensures res.headers.Keys == r.headers.Keys - {Lower(name)}
    ensures forall k :: k in res.headers ==> res.headers[k] == r.headers[k]
    ensures Lower(name) !in r.headers ==> res == r
    ensures Normalized(r.headers) ==> Normalized(res.headers)
    ensures Normalized(r.headers) ==> !HasHeader(res, name)
  {
    var res := r.(headers := r.headers - {Lower(name)});
    if Normalized(r.headers) then
      HasHeaderNormalized(res, name);
      res
    else
      res
  }

  /** Removing a header and then asking for it gives nothing, in any case. */
  lemma WithoutHeaderGet(r: BaseRequest, name: string, asked: string)
    requires SameIgnoringCase(asked, name)
    ensures GetHeader(WithoutHeader(r, name), asked) == Success([])
    ensures GetHeaderLine(WithoutHeader(r, name), asked) == Success("")
  {
  }

  // ---------------------------------------------------------------------
  // Request target
  // ---------------------------------------------------------------------

  /**
   * `getRequestTarget`: the URI path, followed by `?` and the query when
   * the query is truthy in PHP (neither "" nor "0"). An empty path stays
   * empty.
   */
  function GetRequestTarget(r: BaseRequest): (t: string)
    ensures StartsWith(t, r.uri.path)
    ensures t == r.uri.path <==> Falsy(r.uri.query)
    ensures !Falsy(r.uri.query) ==> t[|r.uri.path|..] == "?" + r.uri.query
  {
    if !Falsy(r.uri.query) then r.uri.path + "?" + r.uri.query else r.uri.path
  }

  /** What the target evidently means: the query is appended whenever it is not empty. */
  function GetRequestTargetIntended(r: BaseRequest): (t: string)
    ensures StartsWith(t, r.uri.path)
    ensures t == r.uri.path <==> r.uri.query == ""
    ensures r.uri.query != "" ==> t[|r.uri.path|..] == "?" + r.uri.query
  {
    if r.uri.query != "" then r.uri.path + "?" + r.uri.query else r.uri.path
  }

  /** The two agree except for the query "0". */
  lemma RequestTargetAgreesWithIntended(r: BaseRequest)
    requires r.uri.query != "0"
    ensures GetRequestTarget(r) == GetRequestTargetIntended(r)
  {
  }

  /** A request for `/p?0` reports the target `/p`: the query is lost. */
  lemma RequestTargetZeroQuery(r: BaseRequest)
    requires r.uri.path == "/p" && r.uri.query == "0"
    ensures GetRequestTarget(r) == "/p"
    ensures GetRequestTargetIntended(r) == "/p?0"
  {
  }

  /** A worked example: path `/a/b`, query `c=1`. */
  lemma RequestTargetExample(r: BaseRequest)
    requires r.uri.path == "/a/b" && r.uri.query == "c=1"
    ensures GetRequestTarget(r) == "/a/b?c=1"
  {
  }

  /** The path `parse_url` reported, or `/` (also when it returned false). */
  function TargetPath(parts: Option<UriValue.UrlParts>): (p: string)
    ensures parts.Some? && parts.value.path.Some? ==> p == parts.value.path.value
    ensures parts.None? || parts.value.path.None? ==> p == "/"
  {
    if parts.Some? && parts.value.path.Some? then parts.value.path.value else "/"
  }

  /** The query `parse_url` reported, or "". */
  function TargetQuery(parts: Option<UriValue.UrlParts>): (q: string)
    ensures parts.Some? && parts.value.query.Some? ==> q == parts.value.query.value
    ensures parts.None? || parts.value.query.None? ==> q == ""
  {
    if parts.Some? && parts.value.query.Some? then parts.value.query.value else ""
  }

  /**
   * `withRequestTarget`, given what `parse_url` returned for the target
   * (None for false): the URI gets the reported path (default `/`) through
   * `withPath` and the reported query (default "") through `withQuery`;
   * every other URI component and every other request field is kept.
   */
  function WithRequestTarget(r: BaseRequest, parts: Option<UriValue.UrlParts>): (res: BaseRequest)
    ensures SameExcept(r, res, UriP)
    ensures res.uri.path == TargetPath(parts)
    ensures res.uri.query == LTrim(TargetQuery(parts), '?')
    ensures res.uri.(path := r.uri.path, query := r.uri.query) == r.uri
  {
    WithUri(r, UriValue.WithQuery(UriValue.WithPath(r.uri, TargetPath(parts)), TargetQuery(parts)))
  }

  /**
   * Setting a target and reading it back: the path reported, then `?query`
   * (leading `?` cut) unless that query is "" or "0".
   */
  lemma RequestTargetRoundTrip(r: BaseRequest, parts: UriValue.UrlParts, path: string, query: string)
    requires parts.path == Some(path) && parts.query == Some(query)
    ensures var q := LTrim(query, '?');
      GetRequestTarget(WithRequestTarget(r, Some(parts))) == if Falsy(q) then path else path + "?" + q
  {
    var res := WithRequestTarget(r, Some(parts));
    var q := LTrim(query, '?');
    assert res.uri.path == path && res.uri.query == q;
    if Falsy(q) {
      assert GetRequestTarget(res) == path;
    } else {
      assert GetRequestTarget(res) == path + "?" + q;
    }
  }

  /** `withRequestTarget("/p?q=1")`: the URI path is `/p` and the query `q=1`. */
  lemma RequestTargetSetExample(r: BaseRequest)
    ensures var parts := UriValue.UrlParts(None, None, None, None, None, Some("/p"), Some("q=1"), None);
      var res := WithRequestTarget(r, Some(parts));
      res.uri.path == "/p" && res.uri.query == "q=1" && GetRequestTarget(res) == "/p?q=1"
  {
    assert LTrim("q=1", '?') == "q=1";
  }

  // ---------------------------------------------------------------------
  // Attributes
  // ---------------------------------------------------------------------

  /** `getAttribute`: the stored value, or the default when it is missing or null (`??`). */
  function GetAttribute(r: BaseRequest, name: string, default: Mixed): (v: Mixed)
    ensures name in r.attributes && r.attributes[name] != Null ==> v == r.attributes[name]
    ensures name !in r.attributes || r.attributes[name] == Null ==> v == default
  {
    if name in r.attributes && r.attributes[name] != Null then r.attributes[name] else default
  }

  /** `withAttribute`: one key set; every other name reads as before. */
  function WithAttribute(r: BaseRequest, name: string, value: Mixed): (res: BaseRequest)
    ensures SameExcept(r, res, AttributesP)
    ensures res.attributes.Keys == r.attributes.Keys + {name}
    ensures forall d :: GetAttribute(res, name, d) == if value != Null then value else d
    ensures forall m, d :: m != name ==> GetAttribute(res, m, d) == GetAttribute(r, m, d)
  {
    r.(attributes := r.attributes[name := value])
  }

  /** `withoutAttribute`: one key removed (a no-op when absent); every other name reads as before. */
  function WithoutAttribute(r: BaseRequest, name: string): (res: BaseRequest)
    ensures SameExcept(r, res, AttributesP)
    ensures res.attributes.Keys == r.attributes.Keys - {name}
    ensures forall d :: GetAttribute(res, name, d) == d
    ensures forall m, d :: m != name ==> GetAttribute(res, m, d) == GetAttribute(r, m, d)
    ensures name !in r.attributes ==> res == r
  {
    r.(attributes := r.attributes - {name})
  }

  /** Setting and then removing an attribute leaves every name reading as before the set, except that name. */
  lemma AttributeSetThenRemove(r: BaseRequest, name: string, value: Mixed, m: string, d: Mixed)
    ensures GetAttribute(WithoutAttribute(WithAttribute(r, name, value), name), m, d)
         == if m == name then d else GetAttribute(r, m, d)
  {
  }
}
