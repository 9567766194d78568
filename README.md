# biboletin/request, modelled in Dafny

A model of the three value classes of the PHP library `biboletin/request`,
a small PSR-7 style HTTP request library, with proofs about them:

- `Uri` (`uri.dfy`, module `UriValue`): the eight URI components as a
  record. It covers the copy-on-write `with*` updates, the derived user-info
  and authority strings, and the reassembly of the URI text following the
  generic syntax of section 3 of RFC 3986.
- `Stream` (`stream.dfy`, module `MessageStream`): the body stream as a
  class. It holds an opaque resource handle, or null once detached, and three
  capability flags that are fixed when the object is built.
- `BaseRequest` (`request.dfy`, module `ServerRequest`): the server request
  as an immutable record. It has copy-on-write updates, header lookups that
  ignore case, request-target projection and update through `Uri`, and
  attributes.
- `php.dfy` (module `Php`) restates the PHP built-ins these classes rely on
  over Dafny strings: `strtolower` (ASCII), `ltrim` with one character,
  `implode`, string truthiness, integer-to-string conversion and `strpbrk`.
  It also holds the `Option`/`Result` wrappers used for the error paths
  (exceptions and engine `TypeError`s).

The model follows the code. In three places the code's own comments
promise something else:

- `withQuery`/`withFragment` are commented "Remove leading `?`" / "Remove
  leading `#`" (src/Uri.php:258, 272), but `ltrim` strips every leading
  `?`/`#`, not just one.
- The `getRequestTarget` docblock says the target is `/` when no URI is
  available (src/BaseRequest.php:463-464); the code never substitutes `/`,
  so an empty path and no query give the empty target.
- The header docblocks call every name case-insensitive
  (src/BaseRequest.php:307-335), but only `hasHeader` compares names
  ignoring case: `getHeader` and `getHeaderLine` look up the lowercased name
  as a key, so a header stored under a mixed-case key is reported by
  `hasHeader` yet has no values.

Some further facts about the code that the model keeps:

- `close` only calls `fclose`. Neither `close` nor `detach` changes the
  capability flags. No stream method refuses I/O because of a flag; only
  `__toString` reads one, `seekable`, to decide whether to rewind first.
- `withHeader` stores the value under the name exactly as given, without
  lowercasing it and without wrapping a string value into a list.

The PHP functions that act on the stream resource (`fseek`, `rewind`,
`stream_get_contents`, `fclose`) are not performed. The methods that call
them return the call, with the value passed as the resource, as a
`MessageStream.Call`. What `stream_get_meta_data`, `stream_get_contents` and
`parse_url` return is passed in as a parameter.

## Model

| member | source | states |
|---|---|---|
| Php.Lower | src/Uri.php:182 | `strtolower`: same length; each ASCII capital becomes its small letter (32 code points up) and every other character is kept; no capital is left |
| Php.LowerIdempotent | src/BaseRequest.php:317 | lowercasing twice is lowercasing once |
| Php.LTrim | src/Uri.php:258 | `ltrim($s, $c)`: no longer than `s`, and the result does not start with `c` |
| Php.LTrimSuffix | src/Uri.php:258 | the trim keeps a suffix of `s`, and every character it cuts off is `c` |
| Php.LTrimIdempotent | src/Uri.php:272 | trimming twice removes nothing more |
| Php.LTrimConcat | src/Uri.php:109 | when the second part does not start with `c`, only the first part is trimmed |
| Php.LTrimConcatStops | src/Uri.php:109 | when the first part is not made only of `c`, only the first part is trimmed, whatever the second starts with |
| Php.LTrimConcatThrough | src/Uri.php:109 | when the first part is made only of `c`, the trim of the whole is the trim of the second part |
| Php.LTrimCons | src/Uri.php:297 | one `c` in front of a string not starting with `c` is exactly what is trimmed |
| Php.LTrimEmpty | src/Uri.php:109 | an empty trim result means the string was all `c` |
| Php.StrToBool | src/Stream.php:51 | a string-or-false value stored in a `bool` is true exactly for a string other than "" and "0" |
| Php.Join | src/BaseRequest.php:367 | `implode`: "" for no values, the value itself for one, and it always starts with the first value |
| Php.JoinAppend | src/BaseRequest.php:367 | joining two non-empty runs is joining each and gluing them with the separator |
| Php.NatToDecimal | src/Uri.php:107 | at least one digit, only digits, no leading zero for a positive number, exactly `0` for zero |
| Php.DecimalRoundTrip | src/Uri.php:107 | reading back the digits gives the number |
| Php.IntToDecimal | src/Uri.php:107 | for a non-negative number, digits whose value is the number; for a negative one, `-` followed by digits whose value is its magnitude; never a leading zero (exactly `0` for zero, and no `0` right after the `-`) |
| Php.Strpbrk | src/Stream.php:51 | the tail from the first character in the set, or false when no character is in it; nothing earlier is in the set |
| Php.StrpbrkAsBool | src/Stream.php:52 | for a set without `0` (true of `r+` and `xwca+`), `(bool) strpbrk` is true exactly when some character of the string is in the set |
| UriValue.FromParts | src/Uri.php:67-83 | false from `parse_url` raises InvalidArgumentException; scheme and host are the reported ones lowercased; every other component is the reported one; absent parts become "" (password and port null) |
| UriValue.WithScheme | src/Uri.php:179-184 | only the scheme changes, to the lowercased argument |
| UriValue.WithUserInfo | src/Uri.php:194-200 | only user and password change, to the arguments |
| UriValue.WithHost | src/Uri.php:209-214 | only the host changes, to the lowercased argument |
| UriValue.WithPort | src/Uri.php:223-232 | fails with InvalidArgumentException exactly for a non-null port outside 1..65535; otherwise only the port changes; null is allowed |
| UriValue.WithPath | src/Uri.php:241-246 | only the path changes, verbatim |
| UriValue.WithQuery | src/Uri.php:255-260 | only the query changes, to the argument with all leading `?` trimmed; it does not start with `?` |
| UriValue.WithQueryCuts | src/Uri.php:258 | the stored query is a suffix of the argument, and everything cut off is `?` |
| UriValue.WithFragment | src/Uri.php:269-274 | only the fragment changes, to the argument with all leading `#` trimmed; it does not start with `#` |
| UriValue.WithFragmentCuts | src/Uri.php:272 | the stored fragment is a suffix of the argument, and everything cut off is `#` |
| UriValue.WithQueryIdempotent | src/Uri.php:255-260 | setting the stored query again changes nothing |
| UriValue.WithFragmentIdempotent | src/Uri.php:269-274 | setting the stored fragment again changes nothing |
| UriValue.StandardPort | src/Uri.php:320-327 | 80 for http, 443 for https, and no standard port for any other scheme |
| UriValue.UserInfo | src/Uri.php:117-120 | starts with the user; it is `user:password` when the password is not null and the user alone exactly when it is null, even for an empty user |
| UriValue.PortSuffix | src/Uri.php:106-108 | empty or starting with `:` |
| UriValue.Authority | src/Uri.php:100-110 | never starts with `@` |
| UriValue.AuthorityPort | src/Uri.php:106-108 | `:port` is appended to the port-less authority exactly when the port is set and is not the scheme's standard port |
| UriValue.AuthorityWithUser | src/Uri.php:102-105 | with a user that does not start with `@`, the authority is `userinfo@host[:port]` |
| UriValue.AuthorityUserLeadingAt | src/Uri.php:102-109 | with a user that starts with `@` (and is not only `@`s), the trim also removes the user's own leading `@`s, so the authority is not `userinfo@host[:port]` (`@bob`, host `h` give `bob@h`) |
| UriValue.AuthorityUserOnlyAt | src/Uri.php:102-109 | with a user made only of `@`s, the user and its `@` separator vanish: without a password the authority is the trimmed host and port (user `@`, host `h` give `h`); with one it is `:password@host[:port]` |
| UriValue.AuthorityWithoutUser | src/Uri.php:102-109 | with no user there is no `@` block: the host (leading `@` trimmed) and the port |
| UriValue.EmptyAuthorityHost | src/Uri.php:109 | an empty authority means the host held only `@` characters |
| UriValue.AuthorityStandardPortExample | src/Uri.php:100-110 | `http://example.com:80` has the authority `example.com` |
| UriValue.AuthorityOtherPortExample | src/Uri.php:100-110 | `http://example.com:8080` has the authority `example.com:8080` |
| UriValue.SchemePart | src/Uri.php:285-287 | empty exactly when the scheme is empty |
| UriValue.AuthorityPart | src/Uri.php:289-291 | empty exactly when the authority is empty |
| UriValue.QueryPart | src/Uri.php:304-306 | empty or starting with `?` |
| UriValue.FragmentPart | src/Uri.php:308-310 | empty or starting with `#` |
| UriValue.PathPart | src/Uri.php:293-301 | empty exactly for an empty path; a relative path after a non-empty prefix gets exactly one `/` in front; with no host a path starting with `//` becomes `/` plus the path with its leading slashes trimmed; in every other case the path is written verbatim; with no host it never starts with `//` |
| UriValue.PathPartKeepsContent | src/Uri.php:294-299 | only leading slashes change: trimmed of them, the emitted path is the stored path |
| UriValue.ToString | src/Uri.php:281-313 | `__toString`: the text opens with `scheme:` (if any) followed by `//authority` (if not empty) |
| UriValue.ToStringStarts | src/Uri.php:283-287 | the text opens with `scheme:` (if any) |
| UriValue.ToStringWithAuthority | src/Uri.php:281-313 | with a host and an authority, an absolute or empty path gives `scheme://authority/path` then `?query` and `#fragment` |
| UriValue.ToStringAfterAuthority | src/Uri.php:289-301 | with an authority, what follows it is empty or starts with `/`, `?` or `#` |
| UriValue.ToStringNoAuthority | src/Uri.php:293-301 | with no authority and a host holding no `@` (so an empty host), the text after the scheme never starts with `//` |
| UriValue.ToStringAtHost | src/Uri.php:296 | the no-host rule tests the host, not the authority: with an empty authority from a host made of `@`, a path starting with `//` is written as it is, so the text after the scheme starts with `//` (scheme `s`, host `@`, path `//x` give `s://x`) |
| UriValue.RestWithoutHost | src/Uri.php:293-310 | with no host, path, `?query` and `#fragment` together never start with `//` |
| UriValue.NoDoubleSlashConcat | src/Uri.php:293-310 | appending a `?`-led and a `#`-led piece to text not starting with `//` does not create a leading `//` |
| UriValue.TailEnds | src/Uri.php:304-310 | the text ends with the query piece followed by the fragment piece, with the fragment piece, and with the query piece when the fragment piece is empty |
| UriValue.ToStringEnds | src/Uri.php:304-310 | a non-empty fragment ends the URI text as `#fragment`; otherwise a non-empty query ends it as `?query`; with both, it ends with `?query#fragment` |
| UriValue.RestSeesOnlyEmptiness | src/Uri.php:294 | the path rule gives the same text after any two prefixes that are both empty or both non-empty |
| UriValue.ToStringIntended | src/Uri.php:294 | the intended text, whose `/` rule sees only the authority, opens with the scheme part and the authority part |
| UriValue.AssembleShift | src/Uri.php:294 | the slash rule gives the same text whether or not the scheme counts as prefix, when the scheme is empty or an authority follows |
| UriValue.ToStringAgreesWithIntended | src/Uri.php:294 | the code's text and the intended text agree unless there is a scheme with no authority |
| UriValue.IntendedKeepsPathWithoutAuthority | src/Uri.php:294 | with the intended rule, no authority and no `//` path, the path is emitted verbatim |
| UriValue.ToStringSchemeWithoutAuthority | src/Uri.php:294-295 | with a scheme, no authority and a rootless path, the code writes `scheme:/path` while the intended rule writes `scheme:path` (so `mailto:user@example.com` becomes `mailto:/user@example.com`) |
| MessageStream.ReadableMode | src/Stream.php:51 | readable exactly when the mode contains `r` or `+` |
| MessageStream.WritableMode | src/Stream.php:52 | writable exactly when the mode contains one of `x`, `w`, `c`, `a`, `+` |
| MessageStream.ReadOnlyModes | src/Stream.php:51-52 | `r` and `rb` are readable and not writable |
| MessageStream.WriteOnlyModes | src/Stream.php:51-52 | `w` and `ab` are writable and not readable |
| MessageStream.PlusModes | src/Stream.php:51-52 | any mode with `+` is readable and writable |
| MessageStream.TextOf | src/Stream.php:66 | "" exactly for false, "" and "0"; otherwise the content |
| MessageStream.TextOfIntended | src/Stream.php:66 | "" exactly for false and ""; any string content kept |
| MessageStream.TextOfAgreesWithIntended | src/Stream.php:66 | the two agree on every content but "0" |
| MessageStream.TextOfZeroCounterexample | src/Stream.php:66 | the content "0" converts to "" |
| MessageStream.SelectMetadata | src/Stream.php:222 | null, "" or "0" selects the whole metadata; any other key selects its entry, null when missing |
| MessageStream.Stream.constructor | src/Stream.php:48-52 | holds the resource; seekable copied from the metadata; readable and writable from the mode as above |
| MessageStream.Stream.Open | src/Stream.php:43-53 | a non-resource raises RuntimeException and builds nothing; otherwise a new stream with those flags |
| MessageStream.Stream.Detach | src/Stream.php:87-92 | returns the held resource and leaves null; only the handle may change (the flags are constants) |
| MessageStream.Stream.Close | src/Stream.php:77-80 | `fclose` on whatever is held; nothing in the object changes |
| MessageStream.Stream.Seek | src/Stream.php:143-146 | `fseek` on the held value with the given offset and whence; no flag consulted |
| MessageStream.Stream.Rewind | src/Stream.php:153-156 | exactly `seek(0, SEEK_SET)` |
| MessageStream.Stream.ToText | src/Stream.php:60-70 | the calls are exactly `rewind` (only when seekable) then the read, and nothing else; the text is "" exactly for false, "" and "0", otherwise the content |
| MessageStream.Stream.GetMetadata | src/Stream.php:219-223 | whole metadata exactly for a null, "" or "0" key; otherwise the entry or null |
| MessageStream.DetachTwice | src/Stream.php:87-92 | the first detach returns the resource, a second one returns null |
| MessageStream.CloseAfterDetach | src/Stream.php:79 | after detach, close hands null to `fclose` and the object holds null |
| ServerRequest.WithMethod | src/BaseRequest.php:217-223 | only the method changes |
| ServerRequest.WithUri | src/BaseRequest.php:233-239 | only the URI changes |
| ServerRequest.WithProtocolVersion | src/BaseRequest.php:298-304 | only the protocol version changes |
| ServerRequest.WithBody | src/BaseRequest.php:444-450 | only the body changes |
| ServerRequest.WithCookieParams | src/BaseRequest.php:549-559 | only the cookie bag changes, replaced wholesale |
| ServerRequest.WithQueryParams | src/BaseRequest.php:584-594 | only the query bag changes; the URI is untouched |
| ServerRequest.WithUploadedFiles | src/BaseRequest.php:608-618 | only the uploaded-files bag changes |
| ServerRequest.WithParsedBody | src/BaseRequest.php:264-270 | only the parsed body changes |
| ServerRequest.HasHeader | src/BaseRequest.php:315-319 | `hasHeader` finds a key stored exactly as given and a key stored under the lowercased name |
| ServerRequest.HasHeaderIgnoresCase | src/BaseRequest.php:315-319 | names that differ only in case get the same `hasHeader` answer |
| ServerRequest.HasHeaderNormalized | src/BaseRequest.php:315-319 | under lowercase keys, `hasHeader` is membership of the lowercased name |
| ServerRequest.GetHeader | src/BaseRequest.php:336-340 | the list under the lowercased name, [] when absent; a stored string is a TypeError |
| ServerRequest.GetHeaderLine | src/BaseRequest.php:362-368 | that list joined with ", ", "" when absent; fails exactly when `getHeader` does |
| ServerRequest.GetHeaderIgnoresCase | src/BaseRequest.php:336-368 | names that differ only in case get the same header and header line |
| ServerRequest.GetHeaderNormalized | src/BaseRequest.php:336-368 | under lowercase keys and list values neither lookup fails |
| ServerRequest.WithHeader | src/BaseRequest.php:249-255 | only the entry under the name exactly as given changes, to the value as given |
| ServerRequest.WithHeaderNormalized | src/BaseRequest.php:252 | `withHeader` keeps keys lowercase and values lists exactly for a lowercase name and a list value |
| ServerRequest.WithHeaderMixedCaseInvisible | src/BaseRequest.php:252 | when nothing is stored under the lowercased name yet, a header set under a name with a capital is seen by `hasHeader` but `getHeader` returns [] for it |
| ServerRequest.Wrap | src/BaseRequest.php:390 | a list stays as is, a string becomes a one-element list |
| ServerRequest.WithHeaderIntended | src/BaseRequest.php:249-255 | the keys afterwards are exactly the other names' keys plus the lowercased name (every other spelling removed), other names' values kept; `getHeader` then returns the wrapped values |
| ServerRequest.WithAddedHeader | src/BaseRequest.php:387-400 | appends the wrapped values under the lowercased name or creates it; a stored string is a TypeError; no other key changes |
| ServerRequest.WithAddedHeaderNormalized | src/BaseRequest.php:387-400 | lowercase keys and list values are kept |
| ServerRequest.AddedHeaderLine | src/BaseRequest.php:387-400 | when `getHeader` succeeds with a non-empty old list and the new list is non-empty, the values read back are the old ones then the new ones, and the line is old line, ", ", new values |
| ServerRequest.AddedHeaderExample | src/BaseRequest.php:387-400 | `X-Foo: ["a"]` plus "b" reads `["a", "b"]`; with no X-Foo it reads `["b"]` |
| ServerRequest.WithoutHeader | src/BaseRequest.php:415-428 | removes exactly the lowercased name; a no-op when absent; other entries kept |
| ServerRequest.WithoutHeaderGet | src/BaseRequest.php:415-428 | afterwards the header reads [] and the line "" in any case |
| ServerRequest.GetRequestTarget | src/BaseRequest.php:468-486 | starts with the path; the path alone exactly when the query is "" or "0"; otherwise followed by `?query` |
| ServerRequest.GetRequestTargetIntended | src/BaseRequest.php:480 | starts with the path; the path alone exactly when the query is ""; otherwise the path is followed by `?query` (also for the query "0") |
| ServerRequest.RequestTargetAgreesWithIntended | src/BaseRequest.php:480 | the two agree except for the query "0" |
| ServerRequest.RequestTargetZeroQuery | src/BaseRequest.php:480 | path `/p` with query `0` gives the target `/p` |
| ServerRequest.RequestTargetExample | src/BaseRequest.php:468-486 | path `/a/b` and query `c=1` give `/a/b?c=1` |
| ServerRequest.TargetPath | src/BaseRequest.php:513 | the path `parse_url` reported, `/` when there is none or it returned false |
| ServerRequest.TargetQuery | src/BaseRequest.php:516 | the query `parse_url` reported, "" when there is none or it returned false |
| ServerRequest.WithRequestTarget | src/BaseRequest.php:507-529 | only the URI changes, and in it only the path (default `/`) and the query (default "", leading `?` cut) |
| ServerRequest.RequestTargetRoundTrip | src/BaseRequest.php:468-529 | setting a reported path and query and reading the target back gives `path?query` with leading `?` trimmed from the query, or the path alone when that query is "" or "0" |
| ServerRequest.RequestTargetSetExample | src/BaseRequest.php:507-529 | `/p?q=1` gives path `/p` and query `q=1` |
| ServerRequest.GetAttribute | src/BaseRequest.php:636-639 | the stored value, or the default when missing or null |
| ServerRequest.WithAttribute | src/BaseRequest.php:657-667 | the name reads the value (default if null); every other name reads as before; only attributes change |
| ServerRequest.WithoutAttribute | src/BaseRequest.php:684-694 | the name reads the default; every other name reads as before; a no-op when absent |
| ServerRequest.AttributeSetThenRemove | src/BaseRequest.php:657-694 | set then remove: that name reads the default, others as before the set |

## Left out

- `parse_url` (src/Uri.php:69, src/BaseRequest.php:510) is a parameter: its result is passed in as an optional `UrlParts`. Nothing is claimed about how strings decompose.
- The `BaseRequest` constructor (src/BaseRequest.php:97-108) reads `$_SERVER`, `$_COOKIE`, `$_GET`, `$_FILES`, `$_POST`, `getallheaders()` and `php://input`. A request is built directly as a record instead.
- The getters of all three classes are not separate members: they are the record's field selectors, or in `Stream` the `IsSeekable`/`IsReadable`/`IsWritable` functions.
- src/Facades/Request.php (a forwarding singleton) and vendor/composer/autoload_static.php (class loading) are not part of this model.
- Stream I/O: `getSize`, `tell`, `eof`, `read`, `write` and `getContents` are single calls to `fstat`, `ftell`, `feof`, `fread`, `fwrite` and `stream_get_contents` on the resource. They are not modelled. `seek`, `rewind`, `close` and `__toString` return the call they make instead of performing it.
- The resource's own state is not modelled. That covers its position, its content, and whether `fclose` already closed it. So a second `close` on a live stream (a TypeError in PHP) and a built-in call given null are not modelled as errors.
- MessageStream.Stream.ToText: the `catch (RuntimeException)` branch is not modelled. The PHP stream functions it guards signal failure with warnings, false or TypeError, not RuntimeException.
- Header values other than a string or a list of strings (null, numbers, nested arrays) are not modelled.
- PHP arrays are modelled as maps. Insertion order of keys and the conversion of numeric-string keys to integers are not captured. Order within a header's value list is kept.
- ServerRequest.WithParsedBody takes a parameter bag. Passing `null` or an object to the `array`-typed property (a TypeError) is not modelled.
- The default values of the `attributes` (`[]`) and `protocolVersion` (`"1.1"`) properties belong to the constructor, which is left out.
- Values of unknown shape (attributes, bag entries, metadata entries) are a `Mixed` type. Only null is told apart from other values, because `??` treats a stored null as missing.

## Findings

| source | as written | input that shows it | evidently intended | confidence | as-written member | corrected member |
|---|---|---|---|---|---|---|
| src/Uri.php:294 | a `/` is put in front of a rootless path whenever any text precedes it, including a scheme alone | `mailto:user@example.com` is written `mailto:/user@example.com` | put the `/` only after an authority | high, not executed | UriValue.ToStringSchemeWithoutAuthority | UriValue.ToStringIntended |
| src/BaseRequest.php:480 | `if ($query)` treats the query "0" as absent | a URI with path `/p` and query `0` gives the target `/p` | append `?query` whenever the query is not empty | high, not executed | ServerRequest.RequestTargetZeroQuery | ServerRequest.GetRequestTargetIntended |
| src/Stream.php:66 | `?: ''` turns the content "0" into "" as well as false | a stream whose whole content is `0` converts to "" | only false becomes "" | high, not executed | MessageStream.TextOfZeroCounterexample | MessageStream.TextOfIntended |
| src/BaseRequest.php:252 | `withHeader` stores the name with its case and the value unwrapped, while the lookups use the lowercased name | `withHeader("Content-Type", ["text/html"])` then `getHeader("Content-Type")` gives [] although `hasHeader` is true | store the wrapped value under the lowercased name, replacing other spellings | medium, not executed | ServerRequest.WithHeaderMixedCaseInvisible | ServerRequest.WithHeaderIntended |
