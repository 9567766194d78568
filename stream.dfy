/**
 * The body stream of the request library: an object that holds a PHP
 * stream resource (or null once detached) and three capability flags fixed
 * when it is built. The resource itself lives outside the model: it is an
 * opaque `Handle`, what `stream_get_meta_data` reports about it is passed
 * in, and each operation that hands the resource to a PHP stream function
 * returns that call as a `Call` value instead of performing it.
 */
module MessageStream {
  import opened Php

  /** An open PHP stream resource, known only by identity. */
  datatype Handle = Handle(id: nat)

  /** PHP's `SEEK_SET`. */
  const SEEK_SET: int := 0

  /** A call into PHP's stream functions, with the value passed as the resource (null is None). */
  datatype Call =
    | Fseek(resource: Option<Handle>, offset: int, whence: int)
    | RewindHandle(resource: Option<Handle>)
    | GetContents(resource: Option<Handle>)
    | Fclose(resource: Option<Handle>)

  /** What `getMetadata` returns: the whole metadata array, or one entry of it. */
  datatype MetaAnswer = Whole(meta: map<string, Mixed>) | Entry(value: Mixed)

  /** Some character of `s` occurs in `chars`. */
  predicate ContainsAnyOf(s: string, chars: string) {
    exists i :: 0 <= i < |s| && s[i] in chars
  }

  /** `(bool) strpbrk($mode, 'r+')`: the mode allows reading. */
  function ReadableMode(mode: string): (b: bool)
    ensures b <==> ContainsAnyOf(mode, "r+")
  {
    StrpbrkAsBool(mode, "r+");
    StrToBool(Strpbrk(mode, "r+"))
  }

  /** `(bool) strpbrk($mode, 'xwca+')`: the mode allows writing. */
  function WritableMode(mode: string): (b: bool)
    ensures b <==> ContainsAnyOf(mode, "xwca+")
  {
    StrpbrkAsBool(mode, "xwca+");
    StrToBool(Strpbrk(mode, "xwca+"))
  }

  /** A mode none of whose characters is in `chars` grants nothing. */
  lemma NoneOf(mode: string, chars: string)
    requires forall i :: 0 <= i < |mode| ==> mode[i] !in chars
    ensures !ContainsAnyOf(mode, chars)
  {
  }

  /** `r` and `rb` open for reading only. */
  lemma ReadOnlyModes()
    ensures ReadableMode("r") && !WritableMode("r")
    ensures ReadableMode("rb") && !WritableMode("rb")
  {
    assert "r"[0] in "r+" && "rb"[0] in "r+";
    NoneOf("r", "xwca+");
    NoneOf("rb", "xwca+");
  }

  /** `w` and `ab` open for writing only. */
  lemma WriteOnlyModes()
    ensures !ReadableMode("w") && WritableMode("w")
    ensures !ReadableMode("ab") && WritableMode("ab")
  {
    assert "w"[0] in "xwca+" && "ab"[0] in "xwca+";
    NoneOf("w", "r+");
    NoneOf("ab", "r+");
  }

  /** Any mode with `+` opens for both. */
  lemma PlusModes(mode: string)
    requires '+' in mode
    ensures ReadableMode(mode) && WritableMode(mode)
  {
    var i :| 0 <= i < |mode| && mode[i] == '+';
    assert mode[i] in "r+" && mode[i] in "xwca+";
  }

  /**
   * `stream_get_contents(...) ?: ''` as written: false, "" and also the
   * content "0" all give "".
   */
  function TextOf(contents: Option<string>): (r: string)
    ensures r == "" <==> contents.None? || Falsy(contents.value)
    ensures r != "" ==> r == contents.value
  {
    if contents.Some? && !Falsy(contents.value) then contents.value else ""
  }

  /** What the conversion is evidently meant to do: false gives "", any string is kept. */
  function TextOfIntended(contents: Option<string>): (r: string)
    ensures r == "" <==> contents.None? || contents.value == ""
    ensures contents.Some? ==> r == contents.value
  {
    if contents.Some? then contents.value else ""
  }

  /** The two agree on every content except the one-character string "0". */
  lemma TextOfAgreesWithIntended(contents: Option<string>)
    requires contents != Some("0")
    ensures TextOf(contents) == TextOfIntended(contents)
  {
  }

  /** A stream whose whole content is "0" converts to "". */
  lemma TextOfZeroCounterexample()
    ensures TextOf(Some("0")) == "" && TextOfIntended(Some("0")) == "0"
  {
  }

  /**
   * `getMetadata`'s key choice: a null, "" or "0" key (PHP-falsy) selects
   * the whole array; any other key selects its entry, null when the key is
   * missing or holds null.
   */
  function SelectMetadata(meta: map<string, Mixed>, key: Option<string>): (r: MetaAnswer)
    ensures r.Whole? <==> !StrToBool(key)
    ensures r.Whole? ==> r.meta == meta
    ensures r.Entry? ==> (r.value != Null <==> key.value in meta && meta[key.value] != Null)
    ensures r.Entry? && r.value != Null ==> r.value == meta[key.value]
  {
    match key
    case None => Whole(meta)
    case Some(k) =>
      if Falsy(k) then Whole(meta)
      else if k in meta then Entry(meta[k])
      else Entry(Null)
  }

  class Stream {
    /** The wrapped resource; null (None) after `detach`. */
    var handle: Option<Handle>
    // The capability flags are fixed when the object is built; nothing reassigns them.
    const seekable: bool
    const readable: bool
    const writable: bool

    /**
     * Wraps an open resource. `metaSeekable` and `mode` are the `seekable`
     * and `mode` entries `stream_get_meta_data` reports for it.
     */
    constructor (h: Handle, metaSeekable: bool, mode: string)
      ensures handle == Some(h)
      ensures seekable == metaSeekable
      ensures readable <==> ContainsAnyOf(mode, "r+")
      ensures writable <==> ContainsAnyOf(mode, "xwca+")
    {
      handle := Some(h);
      seekable := metaSeekable;
      readable := ReadableMode(mode);
      writable := WritableMode(mode);
    }

    /**
     * `new Stream($value)`: a value that is not a resource (None) raises
     * RuntimeException and no object is built.
     */
    static method Open(resource: Option<Handle>, metaSeekable: bool, mode: string) returns (r: Result<Stream>)
      ensures r.Failure? <==> resource.None?
      ensures r.Failure? ==> r.error == RuntimeException
      ensures r.Success? ==> fresh(r.value) && r.value.handle == resource
      ensures r.Success? ==> r.value.seekable == metaSeekable
      ensures r.Success? ==> (r.value.readable <==> ContainsAnyOf(mode, "r+"))
      ensures r.Success? ==> (r.value.writable <==> ContainsAnyOf(mode, "xwca+"))
    {
      if resource.None? {
        return Failure(RuntimeException);
      }
      var s := new Stream(resource.value, metaSeekable, mode);
      return Success(s);
    }

    function IsSeekable(): bool
    {
      seekable
    }

    function IsReadable(): bool
    {
      readable
    }

    function IsWritable(): bool
    {
      writable
    }

    /**
     * Hands the resource out and keeps null. Only the handle changes: the
     * three flags are constants, so `isSeekable`, `isReadable` and
     * `isWritable` answer as before.
     */
    method Detach() returns (h: Option<Handle>)
      modifies this`handle
      ensures h == old(handle) && handle == None
    {
      h := handle;
      handle := None;
    }

    /** `fclose` on whatever is held; nothing in the object changes. */
    method Close() returns (c: Call)
      ensures c == Fclose(handle) && c.resource == handle
    {
      c := Fclose(handle);
    }

    /** `fseek` on the held value with the given offset and whence. */
    method Seek(offset: int, whence: int) returns (c: Call)
      ensures c.Fseek? && c.resource == handle && c.offset == offset && c.whence == whence
    {
      c := Fseek(handle, offset, whence);
    }

    /** `rewind()` is `seek(0)`, whose whence defaults to SEEK_SET. */
    method Rewind() returns (c: Call)
      ensures c.Fseek? && c.resource == handle && c.offset == 0 && c.whence == SEEK_SET
    {
      c := Seek(0, SEEK_SET);
    }

    /**
     * `__toString`: `rewind` the resource first only when the stream is
     * seekable, then read the rest of it; `contents` is what
     * `stream_get_contents` returns (None for false).
     */
    method ToText(contents: Option<string>) returns (r: string, calls: seq<Call>)
      ensures 1 <= |calls| <= 2 && calls[|calls| - 1] == GetContents(handle)
      ensures calls == (if seekable then [RewindHandle(handle)] else []) + [GetContents(handle)]
      ensures RewindHandle(handle) in calls <==> seekable
      ensures seekable ==> calls[0] == RewindHandle(handle)
      ensures r == "" <==> contents.None? || Falsy(contents.value)
      ensures r != "" ==> r == contents.value
    {
      calls := [];
      if seekable {
        calls := calls + [RewindHandle(handle)];
      }
      calls := calls + [GetContents(handle)];
      r := TextOf(contents);
    }

    /** `getMetadata($key)`, given what `stream_get_meta_data` reports for the held resource. */
    method GetMetadata(key: Option<string>, meta: map<string, Mixed>) returns (r: MetaAnswer)
      ensures r.Whole? <==> key.None? || Falsy(key.value)
      ensures r.Whole? ==> r.meta == meta
      ensures r.Entry? && key.value in meta ==> r.value == meta[key.value]
      ensures r.Entry? && key.value !in meta ==> r.value == Null
    {
      r := SelectMetadata(meta, key);
    }
  }

  /**
   * Detaching twice: the first call hands out the resource, the second
   * hands out null.
   */
  method DetachTwice(s: Stream) returns (first: Option<Handle>, second: Option<Handle>)
    modifies s
    ensures first == old(s.handle) && second == None && s.handle == None
  {
    first := s.Detach();
    second := s.Detach();
  }

  /** After `detach`, `close` hands null to `fclose`: the object no longer holds the resource. */
  method CloseAfterDetach(s: Stream) returns (h: Option<Handle>, c: Call)
    modifies s
    ensures h == old(s.handle) && c == Fclose(None) && s.handle == None
  {
    h := s.Detach();
    c := s.Close();
  }
}
