/**
 * The URI value of the request library: a record of the eight components,
 * copy-on-write `with*` updates, the derived authority and user-info
 * strings, and the reassembly of the URI text (the generic syntax of
 * section 3 of RFC 3986). The getters of the class are the record's field
 * selectors (`u.scheme`, `u.host`, ...).
 */
module UriValue {
  import opened Php

  datatype Uri = Uri(
    scheme: string,
    user: string,
    password: Option<string>,
    host: string,
    port: Option<int>,
    path: string,
    query: string,
    fragment: string)

  /** The components `parse_url` reports for a URI string; absent ones are None. */
  datatype UrlParts = UrlParts(
    scheme: Option<string>,
    user: Option<string>,
    pass: Option<string>,
    host: Option<string>,
    port: Option<int>,
    path: Option<string>,
    query: Option<string>,
    fragment: Option<string>)

  /** The component a copy-on-write update replaces (user and password go together). */
  datatype Component = SchemeC | UserInfoC | HostC | PortC | PathC | QueryC | FragmentC

  /** `b` agrees with `a` on every component except possibly `c`. */
  predicate SameExcept(a: Uri, b: Uri, c: Component) {
    && (c != SchemeC ==> a.scheme == b.scheme)
    && (c != UserInfoC ==> a.user == b.user && a.password == b.password)
    && (c != HostC ==> a.host == b.host)
    && (c != PortC ==> a.port == b.port)
    && (c != PathC ==> a.path == b.path)
    && (c != QueryC ==> a.query == b.query)
    && (c != FragmentC ==> a.fragment == b.fragment)
  }

  function OrEmpty(o: Option<string>): string {
    if o.Some? then o.value else ""
  }

  /**
   * The constructor, from what `parse_url` returned (None standing for its
   * `false`): an unparseable string raises InvalidArgumentException; scheme
   * and host are lowercased; absent components become "" (port and
   * password become null).
   */
  function FromParts(parts: Option<UrlParts>): (r: Result<Uri>)
    ensures parts.None? <==> r.Failure?
    ensures r.Failure? ==> r.error == InvalidArgumentException
    ensures r.Success? ==> r.value.scheme == Lower(OrEmpty(parts.value.scheme)) && IsLower(r.value.scheme)
    ensures r.Success? ==> r.value.host == Lower(OrEmpty(parts.value.host)) && IsLower(r.value.host)
    ensures r.Success? ==> r.value.port == parts.value.port && r.value.password == parts.value.pass
    ensures r.Success? ==> r.value.user == OrEmpty(parts.value.user) && r.value.path == OrEmpty(parts.value.path)
    ensures r.Success? ==> r.value.query == OrEmpty(parts.value.query) && r.value.fragment == OrEmpty(parts.value.fragment)
  {
    match parts
    case None => Failure(InvalidArgumentException)
    case Some(p) =>
      Success(Uri(
        Lower(OrEmpty(p.scheme)), OrEmpty(p.user), p.pass, Lower(OrEmpty(p.host)),
        p.port, OrEmpty(p.path), OrEmpty(p.query), OrEmpty(p.fragment)))
  }

  // ---------------------------------------------------------------------
  // Copy-on-write updates
  // ---------------------------------------------------------------------

  function WithScheme(u: Uri, scheme: string): (r: Uri)
    ensures SameExcept(u, r, SchemeC)
    ensures IsLower(r.scheme) && SameIgnoringCase(r.scheme, scheme)
  {
    LowerIdempotent(scheme);
    u.(scheme := Lower(scheme))
  }

  function WithUserInfo(u: Uri, user: string, password: Option<string>): (r: Uri)
    ensures SameExcept(u, r, UserInfoC)
    ensures r.user == user && r.password == password
  {
    u.(user := user, password := password)
  }

  function WithHost(u: Uri, host: string): (r: Uri)
    ensures SameExcept(u, r, HostC)
    ensures IsLower(r.host) && SameIgnoringCase(r.host, host)
  {
    LowerIdempotent(host);
    u.(host := Lower(host))
  }

  /** A port must be null or lie in 1..65535; anything else raises InvalidArgumentException. */
  predicate ValidPort(port: Option<int>) {
    port.None? || 1 <= port.value <= 65535
  }

  function WithPort(u: Uri, port: Option<int>): (r: Result<Uri>)
    ensures r.Failure? <==> !ValidPort(port)
    ensures r.Failure? ==> r.error == InvalidArgumentException
    ensures r.Success? ==> SameExcept(u, r.value, PortC) && r.value.port == port
  {
    if port.Some? && (port.value < 1 || port.value > 65535) then Failure(InvalidArgumentException)
    else Success(u.(port := port))
  }

  function WithPath(u: Uri, path: string): (r: Uri)
    ensures SameExcept(u, r, PathC) && r.path == path
  {
    u.(path := path)
  }

  /** Every leading `?` is removed, not just one (WithQueryCuts says what is kept). */
  function WithQuery(u: Uri, query: string): (r: Uri)
    ensures SameExcept(u, r, QueryC)
    ensures r.query == LTrim(query, '?')
    ensures r.query == [] || r.query[0] != '?'
  {
    u.(query := LTrim(query, '?'))
  }

  /** The stored query is a suffix of the argument, and everything cut off is `?`. */
  lemma WithQueryCuts(u: Uri, query: string)
    ensures var q := WithQuery(u, query).query;
      |q| <= |query| && q == query[|query| - |q|..] && forall i :: 0 <= i < |query| - |q| ==> query[i] == '?'
  {
    LTrimSuffix(query, '?');
  }

  /** Every leading `#` is removed, not just one (WithFragmentCuts says what is kept). */
  function WithFragment(u: Uri, fragment: string): (r: Uri)
    ensures SameExcept(u, r, FragmentC)
    ensures r.fragment == LTrim(fragment, '#')
    ensures r.fragment == [] || r.fragment[0] != '#'
  {
    u.(fragment := LTrim(fragment, '#'))
  }

  /** The stored fragment is a suffix of the argument, and everything cut off is `#`. */
  lemma WithFragmentCuts(u: Uri, fragment: string)
    ensures var f := WithFragment(u, fragment).fragment;
      |f| <= |fragment| && f == fragment[|fragment| - |f|..] && forall i :: 0 <= i < |fragment| - |f| ==> fragment[i] == '#'
  {
    LTrimSuffix(fragment, '#');
  }

  /** Setting the query a second time with the stored value changes nothing. */
  lemma WithQueryIdempotent(u: Uri, query: string)
    ensures WithQuery(WithQuery(u, query), WithQuery(u, query).query) == WithQuery(u, query)
  {
    LTrimIdempotent(query, '?');
  }

  /** Setting the fragment a second time with the stored value changes nothing. */
  lemma WithFragmentIdempotent(u: Uri, fragment: string)
    ensures WithFragment(WithFragment(u, fragment), WithFragment(u, fragment).fragment) == WithFragment(u, fragment)
  {
    LTrimIdempotent(fragment, '#');
  }

  // ---------------------------------------------------------------------
  // Authority and user info
  // ---------------------------------------------------------------------

  /** The port a scheme implies: 80 for http, 443 for https, none otherwise. */
  function StandardPort(scheme: string): (p: Option<int>)
    ensures p.Some? <==> scheme == "http" || scheme == "https"
    ensures scheme == "http" ==> p == Some(80)
    ensures scheme == "https" ==> p == Some(443)
  {
    if scheme == "http" then Some(80)
    else if scheme == "https" then Some(443)
    else None
  }

  /** The port is written out: it is set and is not the scheme's standard port. */
  predicate ShowsPort(u: Uri) {
    u.port.Some? && u.port != StandardPort(u.scheme)
  }

  function PasswordPart(password: Option<string>): string {
    if password.Some? then ":" + password.value else ""
  }

  /** `user[:password]`; the password part is present exactly when the password is not null. */
  function UserInfo(u: Uri): (r: string)
    ensures StartsWith(r, u.user)
    ensures r == u.user <==> u.password.None?
    ensures u.password.Some? ==> r == u.user + ":" + u.password.value
  {
    u.user + PasswordPart(u.password)
  }

  function PortSuffix(u: Uri): (r: string)
    ensures r == [] || r[0] == ':'
  {
    if ShowsPort(u) then ":" + IntToDecimal(u.port.value) else ""
  }

  /** The `user[:password]@` block, present only when the user is not empty. */
  function UserPrefix(u: Uri): string {
    if u.user != "" then UserInfo(u) + "@" else ""
  }

  /** `[user[:password]@]host[:port]`, with every leading `@` trimmed off. */
  function Authority(u: Uri): (r: string)
    ensures r == [] || r[0] != '@'
  {
    LTrim(UserPrefix(u) + u.host + PortSuffix(u), '@')
  }

  /**
   * The port appears in the authority exactly when ShowsPort holds: the
   * authority is the port-less authority followed by `:port` in that case,
   * and equals the port-less authority otherwise (so the standard port of
   * http and https is hidden).
   */
  lemma AuthorityPort(u: Uri)
    ensures Authority(u) == Authority(u.(port := None)) + PortSuffix(u)
    ensures ShowsPort(u) ==> Authority(u) == Authority(u.(port := None)) + ":" + IntToDecimal(u.port.value)
    ensures !ShowsPort(u) ==> Authority(u) == Authority(u.(port := None))
  {
    var v := u.(port := None);
    assert UserPrefix(v) == UserPrefix(u) && PortSuffix(v) == "";
    assert UserPrefix(v) + v.host + PortSuffix(v) == UserPrefix(u) + u.host;
    LTrimConcat(UserPrefix(u) + u.host, PortSuffix(u), '@');
  }

  /** With a user that does not itself start with `@`, the authority is `userinfo@host[:port]`. */
  lemma AuthorityWithUser(u: Uri)
    requires u.user != "" && u.user[0] != '@'
    ensures Authority(u) == UserInfo(u) + "@" + u.host + PortSuffix(u)
    ensures StartsWith(Authority(u), UserInfo(u) + "@")
  {
    var s := UserInfo(u) + "@" + u.host + PortSuffix(u);
    assert s[0] == u.user[0];
    assert LTrim(s, '@') == s;
  }

  /**
   * A user that starts with `@` loses those characters too: the trim runs
   * through the user's own leading `@`s (as long as something else is left
   * of the user), so `@bob` with host `h` gives the authority `bob@h`.
   */
  lemma AuthorityUserLeadingAt(u: Uri)
    requires u.user != "" && u.user[0] == '@' && LTrim(u.user, '@') != ""
    ensures Authority(u) == LTrim(u.user, '@') + PasswordPart(u.password) + "@" + u.host + PortSuffix(u)
    ensures Authority(u) != UserInfo(u) + "@" + u.host + PortSuffix(u)
  {
    var rest := PasswordPart(u.password) + "@" + u.host + PortSuffix(u);
    assert UserPrefix(u) == u.user + PasswordPart(u.password) + "@";
    Regroup(u.user, PasswordPart(u.password), "@");
    Regroup(u.user, PasswordPart(u.password) + "@", u.host);
    Regroup(u.user, PasswordPart(u.password) + "@" + u.host, PortSuffix(u));
    LTrimConcatStops(u.user, rest, '@');
    Regroup(LTrim(u.user, '@'), PasswordPart(u.password), "@");
    Regroup(LTrim(u.user, '@'), PasswordPart(u.password) + "@", u.host);
    Regroup(LTrim(u.user, '@'), PasswordPart(u.password) + "@" + u.host, PortSuffix(u));
    assert LTrim(u.user, '@') == LTrim(u.user[1..], '@');
  }

  /**
   * A user made only of `@` vanishes together with its `@` separator: the
   * trim runs through both into whatever follows. Without a password it
   * goes on into the host, so user `@` with host `h` gives the authority
   * `h`; a password stops it at the `:`.
   */
  lemma AuthorityUserOnlyAt(u: Uri)
    requires u.user != "" && LTrim(u.user, '@') == ""
    ensures u.password.None? ==> Authority(u) == LTrim(u.host, '@') + PortSuffix(u)
    ensures u.password.Some? ==> Authority(u) == ":" + u.password.value + "@" + u.host + PortSuffix(u)
  {
    var rest := PasswordPart(u.password) + "@" + u.host + PortSuffix(u);
    assert UserPrefix(u) == u.user + PasswordPart(u.password) + "@";
    Regroup(u.user, PasswordPart(u.password), "@");
    Regroup(u.user, PasswordPart(u.password) + "@", u.host);
    Regroup(u.user, PasswordPart(u.password) + "@" + u.host, PortSuffix(u));
    LTrimConcatThrough(u.user, rest, '@');
    assert Authority(u) == LTrim(rest, '@');
    if u.password.None? {
      DropEmpty("", "@", u.host);
      Regroup("@", u.host, PortSuffix(u));
      LTrimConcatThrough("@", u.host + PortSuffix(u), '@');
      LTrimConcat(u.host, PortSuffix(u), '@');
    } else {
      assert rest[0] == ':';
    }
  }

  /** Without a user no `@` block is emitted: the authority is the host (leading `@`s trimmed) and port. */
  lemma AuthorityWithoutUser(u: Uri)
    requires u.user == ""
    ensures Authority(u) == LTrim(u.host, '@') + PortSuffix(u)
  {
    DropEmpty(UserPrefix(u), u.host, PortSuffix(u));
    LTrimConcat(u.host, PortSuffix(u), '@');
  }

  /** An empty authority means the host held nothing but `@` characters. */
  lemma EmptyAuthorityHost(u: Uri)
    requires Authority(u) == ""
    ensures forall i :: 0 <= i < |u.host| ==> u.host[i] == '@'
    ensures u.host == [] || '@' in u.host
  {
    var s := UserPrefix(u) + u.host + PortSuffix(u);
    LTrimEmpty(s, '@');
    forall i | 0 <= i < |u.host| ensures u.host[i] == '@' {
      assert s[|UserPrefix(u)| + i] == u.host[i];
    }
    if u.host != [] {
      assert u.host[0] in u.host;
    }
  }

  /** http://example.com:80 has the authority `example.com`: the standard port is hidden. */
  lemma AuthorityStandardPortExample()
    ensures Authority(Uri("http", "", None, "example.com", Some(80), "/x", "", "")) == "example.com"
  {
    AuthorityWithoutUser(Uri("http", "", None, "example.com", Some(80), "/x", "", ""));
  }

  /** http://example.com:8080 has the authority `example.com:8080`. */
  lemma AuthorityOtherPortExample()
    ensures Authority(Uri("http", "", None, "example.com", Some(8080), "/x", "", "")) == "example.com:8080"
  {
    AuthorityWithoutUser(Uri("http", "", None, "example.com", Some(8080), "/x", "", ""));
    assert NatToDecimal(8080) == "8080" by {
      assert NatToDecimal(8) == "8";
      assert NatToDecimal(80) == "80";
      assert NatToDecimal(808) == "808";
    }
  }

  // ---------------------------------------------------------------------
  // __toString
  // ---------------------------------------------------------------------

  function SchemePart(u: Uri): (r: string)
    ensures r == "" <==> u.scheme == ""
  {
    if u.scheme != "" then u.scheme + ":" else ""
  }

  function AuthorityPart(u: Uri): (r: string)
    ensures r == "" <==> Authority(u) == ""
  {
    if Authority(u) != "" then "//" + Authority(u) else ""
  }

  function QueryPart(query: string): (r: string)
    ensures r == [] || r[0] == '?'
  {
    if query != "" then "?" + query else ""
  }

  function FragmentPart(fragment: string): (r: string)
    ensures r == [] || r[0] == '#'
  {
    if fragment != "" then "#" + fragment else ""
  }

  /**
   * The path as written after `prefix`, the text built so far: a relative
   * path gets a `/` in front when the prefix is not empty; with no host, a
   * path starting with `//` has its leading slashes collapsed to one. A
   * non-empty path is never dropped, a non-empty prefix is followed by
   * nothing or by `/`, and without a host the emitted path never starts
   * with `//`.
   */
  function PathPart(prefix: string, path: string, host: string): (r: string)
    ensures r == "" <==> path == ""
    ensures prefix != "" ==> r == "" || r[0] == '/'
    ensures host == "" ==> !StartsWithDoubleSlash(r)
    ensures prefix != "" && path != "" && path[0] != '/' ==> r == "/" + path
    ensures host == "" && StartsWithDoubleSlash(path) ==> r == "/" + LTrim(path, '/')
    ensures path != "" && (prefix == "" || path[0] == '/') && !(host == "" && StartsWithDoubleSlash(path)) ==> r == path
  {
    if path == "" then ""
    else if prefix != "" && path[0] != '/' then "/" + path
    else if host == "" && StartsWithDoubleSlash(path) then "/" + LTrim(path, '/')
    else path
  }

  /** Only leading slashes of the path ever change: trimmed of them, the emitted path is the stored one. */
  lemma PathPartKeepsContent(prefix: string, path: string, host: string)
    ensures LTrim(PathPart(prefix, path, host), '/') == LTrim(path, '/')
  {
    if path == "" {
    } else if prefix != "" && path[0] != '/' {
      LTrimCons('/', path);
    } else if host == "" && StartsWithDoubleSlash(path) {
      LTrimCons('/', LTrim(path, '/'));
    }
  }

  /** The text built from the prefix onwards: path, `?query`, `#fragment`. */
  function Assemble(prefix: string, path: string, host: string, query: string, fragment: string): string {
    prefix + Rest(prefix, path, host, query, fragment)
  }

  /** What follows the prefix: the emitted path, then `?query`, then `#fragment`. */
  function Rest(prefix: string, path: string, host: string, query: string, fragment: string): string {
    PathPart(prefix, path, host) + QueryPart(query) + FragmentPart(fragment)
  }

  /**
   * `Uri::__toString`, as the code writes it: `scheme:` and `//authority`
   * open the text, and whatever follows is built by the path rule.
   */
  function ToString(u: Uri): (r: string)
    ensures StartsWith(r, SchemePart(u) + AuthorityPart(u))
  {
    var prefix := SchemePart(u) + AuthorityPart(u);
    StartsWithConcat(prefix, Rest(prefix, u.path, u.host, u.query, u.fragment));
    Assemble(prefix, u.path, u.host, u.query, u.fragment)
  }

  /**
   * The usual case: with a host and an authority, an absolute (or empty)
   * path is written verbatim, giving `scheme://authority/path?query#fragment`.
   */
  lemma ToStringWithAuthority(u: Uri)
    requires Authority(u) != "" && u.host != ""
    requires u.path == "" || u.path[0] == '/'
    ensures ToString(u) == SchemePart(u) + "//" + Authority(u) + u.path + QueryPart(u.query) + FragmentPart(u.fragment)
  {
    var sp, a, q, f := SchemePart(u), Authority(u), QueryPart(u.query), FragmentPart(u.fragment);
    assert AuthorityPart(u) == "//" + a;
    assert PathPart(sp + ("//" + a), u.path, u.host) == u.path;
    assert ToString(u) == (sp + ("//" + a)) + ((u.path + q) + f);
    Regroup(sp, "//", a);
    FlattenTail(sp + "//" + a, u.path, q, f);
  }

  /**
   * The no-host rule looks at the host, not at the authority: a host made
   * only of `@` gives an empty authority, yet a path starting with `//` is
   * then written as it is, so the text after the scheme starts with `//`
   * (scheme `s`, host `@`, path `//x` give `s://x`).
   */
  lemma ToStringAtHost(u: Uri)
    requires Authority(u) == "" && u.host != ""
    requires StartsWithDoubleSlash(u.path)
    ensures ToString(u) == SchemePart(u) + u.path + QueryPart(u.query) + FragmentPart(u.fragment)
    ensures StartsWithDoubleSlash(ToString(u)[|SchemePart(u)|..])
  {
    var sp, q, f := SchemePart(u), QueryPart(u.query), FragmentPart(u.fragment);
    assert AuthorityPart(u) == "" && sp + AuthorityPart(u) == sp;
    assert PathPart(sp, u.path, u.host) == u.path;
    assert ToString(u) == sp + ((u.path + q) + f);
    FlattenTail(sp, u.path, q, f);
    var t := ToString(u)[|sp|..];
    assert t == (u.path + q) + f;
    assert t[0] == u.path[0] && t[1] == u.path[1];
  }

  /** The text opens with `scheme:` (when there is a scheme). */
  lemma ToStringStarts(u: Uri)
    ensures StartsWith(ToString(u), SchemePart(u))
  {
    var prefix := SchemePart(u) + AuthorityPart(u);
    assert ToString(u)[..|prefix|] == prefix;
    assert ToString(u)[..|SchemePart(u)|] == prefix[..|SchemePart(u)|];
  }

  /**
   * Section 3.3 of RFC 3986, first rule: when an authority is present, what
   * follows it is empty or starts with `/`, `?` or `#`.
   */
  lemma ToStringAfterAuthority(u: Uri)
    requires Authority(u) != ""
    ensures StartsWith(ToString(u), SchemePart(u) + "//" + Authority(u))
    ensures var rest := ToString(u)[|SchemePart(u)| + 2 + |Authority(u)|..];
            rest == "" || rest[0] in "/?#"
  {
    var prefix := SchemePart(u) + AuthorityPart(u);
    assert prefix == SchemePart(u) + "//" + Authority(u);
    var p := PathPart(prefix, u.path, u.host);
    var rest := Rest(prefix, u.path, u.host, u.query, u.fragment);
    assert ToString(u)[|prefix|..] == rest;
    if p != "" {
      assert rest[0] == p[0];
    } else if QueryPart(u.query) != "" {
      assert rest[0] == '?';
    }
  }

  /**
   * Section 3.3 of RFC 3986, second rule: with no authority (and a host that
   * is not made of `@` characters), the text after the scheme never starts
   * with `//`, so it cannot be read back as an authority.
   */
  lemma ToStringNoAuthority(u: Uri)
    requires Authority(u) == "" && '@' !in u.host
    ensures StartsWith(ToString(u), SchemePart(u))
    ensures !StartsWithDoubleSlash(ToString(u)[|SchemePart(u)|..])
  {
    EmptyAuthorityHost(u);
    assert u.host == [];
    var prefix := SchemePart(u) + AuthorityPart(u);
    assert prefix == SchemePart(u);
    assert ToString(u) == prefix + Rest(prefix, u.path, u.host, u.query, u.fragment);
    RestWithoutHost(prefix, u.path, u.host, u.query, u.fragment);
  }

  /** With no host, what follows the prefix never starts with `//`. */
  lemma RestWithoutHost(prefix: string, path: string, host: string, query: string, fragment: string)
    requires host == ""
    ensures !StartsWithDoubleSlash(Rest(prefix, path, host, query, fragment))
  {
    NoDoubleSlashConcat(PathPart(prefix, path, host), QueryPart(query), FragmentPart(fragment));
  }

  /**
   * Appending a `?`-led and then a `#`-led piece (either may be empty) to
   * text that does not start with `//` cannot create a leading `//`.
   */
  lemma NoDoubleSlashConcat(p: string, q: string, f: string)
    requires !StartsWithDoubleSlash(p)
    requires q == [] || q[0] == '?'
    requires f == [] || f[0] == '#'
    ensures !StartsWithDoubleSlash(p + q + f)
  {
    var s := p + q + f;
    if |s| >= 2 && s[0] == '/' {
      assert p != [] && s[0] == p[0];
      if |p| == 1 {
        if q != [] {
          assert s[1] == q[0];
        } else {
          assert s[1] == f[0];
        }
      } else {
        assert s[1] == p[1];
      }
    }
  }

  /**
   * In `a + (p + q + f)`, the text ends with `q + f`, with `f`, and with
   * `q` when `f` is empty.
   */
  lemma TailEnds(a: string, p: string, q: string, f: string)
    ensures EndsWith(a + (p + q + f), f)
    ensures f == [] ==> EndsWith(a + (p + q + f), q)
    ensures EndsWith(a + (p + q + f), q + f)
  {
    assert a + (p + q + f) == (a + p + q) + f;
    EndsWithConcat(a + p + q, f);
    assert a + (p + q + f) == (a + p) + (q + f);
    EndsWithConcat(a + p, q + f);
    if f == [] {
      assert a + (p + q + f) == (a + p) + q;
      EndsWithConcat(a + p, q);
    }
  }

  /**
   * A non-empty fragment ends the text; otherwise a non-empty query does;
   * with both, `?query` comes right before `#fragment` at the end.
   */
  lemma ToStringEnds(u: Uri)
    ensures u.fragment != "" ==> EndsWith(ToString(u), "#" + u.fragment)
    ensures u.fragment == "" && u.query != "" ==> EndsWith(ToString(u), "?" + u.query)
    ensures u.query != "" && u.fragment != "" ==> EndsWith(ToString(u), ("?" + u.query) + ("#" + u.fragment))
  {
    var prefix := SchemePart(u) + AuthorityPart(u);
    TailEnds(prefix, PathPart(prefix, u.path, u.host), QueryPart(u.query), FragmentPart(u.fragment));
  }

  /**
   * The slash rule the code meant: a `/` is put in front of a relative path
   * only when an authority precedes it (a scheme alone does not call for one).
   */
  function ToStringIntended(u: Uri): (r: string)
    ensures StartsWith(r, SchemePart(u) + AuthorityPart(u))
  {
    var ap := AuthorityPart(u);
    var rest := Rest(ap, u.path, u.host, u.query, u.fragment);
    Regroup(SchemePart(u), ap, rest);
    StartsWithConcat(SchemePart(u) + ap, rest);
    SchemePart(u) + Assemble(ap, u.path, u.host, u.query, u.fragment)
  }

  /**
   * Moving the scheme out of the prefix changes nothing when it is empty or
   * when an authority follows it.
   */
  lemma AssembleShift(sp: string, ap: string, path: string, host: string, query: string, fragment: string)
    requires ap != "" || sp == ""
    ensures Assemble(sp + ap, path, host, query, fragment) == sp + Assemble(ap, path, host, query, fragment)
  {
    RestSeesOnlyEmptiness(sp + ap, ap, path, host, query, fragment);
    Regroup(sp, ap, Rest(ap, path, host, query, fragment));
  }

  /** Text followed by a path, a query piece and a fragment piece regroups to the left. */
  lemma FlattenTail(a: string, p: string, q: string, f: string)
    ensures a + ((p + q) + f) == a + p + q + f
  {
  }

  /** An empty first piece adds nothing. */
  lemma DropEmpty(e: string, a: string, b: string)
    requires e == []
    ensures e + a + b == a + b
  {
  }

  /** Concatenation regroups freely. */
  lemma Regroup(a: string, b: string, c: string)
    ensures (a + b) + c == a + (b + c)
  {
  }

  /** Of the prefix, the path rule only looks at whether it is empty. */
  lemma RestSeesOnlyEmptiness(p1: string, p2: string, path: string, host: string, query: string, fragment: string)
    requires (p1 == "") == (p2 == "")
    ensures Rest(p1, path, host, query, fragment) == Rest(p2, path, host, query, fragment)
  {
    assert PathPart(p1, path, host) == PathPart(p2, path, host);
  }

  /** The written and the intended forms differ only for a scheme with no authority. */
  lemma ToStringAgreesWithIntended(u: Uri)
    requires Authority(u) != "" || u.scheme == ""
    ensures ToString(u) == ToStringIntended(u)
  {
    AssembleShift(SchemePart(u), AuthorityPart(u), u.path, u.host, u.query, u.fragment);
  }

  /**
   * With the intended rule, a URI without authority whose path does not
   * start with `//` keeps its path verbatim after the scheme.
   */
  lemma IntendedKeepsPathWithoutAuthority(u: Uri)
    requires Authority(u) == "" && !StartsWithDoubleSlash(u.path)
    ensures ToStringIntended(u) == SchemePart(u) + u.path + QueryPart(u.query) + FragmentPart(u.fragment)
  {
  }

  /**
   * A scheme with no authority and a rootless path, such as
   * `mailto:user@example.com`: the code writes `scheme:/path`
   * (`mailto:/user@example.com`), turning the path into an absolute one,
   * where the intended rule writes `scheme:path`.
   */
  lemma ToStringSchemeWithoutAuthority(u: Uri)
    requires u.scheme != "" && Authority(u) == ""
    requires u.path != "" && u.path[0] != '/'
    ensures ToString(u) == u.scheme + ":" + "/" + u.path + QueryPart(u.query) + FragmentPart(u.fragment)
    ensures ToStringIntended(u) == u.scheme + ":" + u.path + QueryPart(u.query) + FragmentPart(u.fragment)
  {
    var sp, q, f := SchemePart(u), QueryPart(u.query), FragmentPart(u.fragment);
    assert sp == u.scheme + ":" && AuthorityPart(u) == "";
    assert sp + AuthorityPart(u) == sp;
    assert PathPart(sp, u.path, u.host) == "/" + u.path;
    assert ToString(u) == sp + ((("/" + u.path) + q) + f);
    Flatten(sp, "/", u.path, q, f);
    assert PathPart("", u.path, u.host) == u.path;
    assert ToStringIntended(u) == sp + ("" + ((u.path + q) + f));
    assert "" + ((u.path + q) + f) == (u.path + q) + f;
    Flatten(sp, "", u.path, q, f);
    assert sp + "" == sp;
  }

  /** Concatenation regroups to the left. */
  lemma Flatten(a: string, b: string, c: string, d: string, e: string)
    ensures a + (((b + c) + d) + e) == a + b + c + d + e
  {
  }
}
