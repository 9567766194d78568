/**
 * The PHP built-ins that the request library relies on, restated over
 * Dafny strings: `strtolower`, `ltrim` with a single character, `implode`,
 * string truthiness, integer-to-string conversion and `strpbrk`, plus the
 * wrappers the library's error paths are modelled with.
 */
module Php {

  datatype Option<+T> = None | Some(value: T)

  /** The exceptions and engine errors the library's code can raise. */
  datatype Error =
    | InvalidArgumentException
    | RuntimeException
    | TypeError

  datatype Result<+T> = Success(value: T) | Failure(error: Error)

  /**
   * A PHP value of unknown shape (an attribute, an entry of a parameter bag,
   * a metadata entry). Only `null` has to be told apart, because `??`
   * treats a stored `null` like a missing key.
   */
  datatype Mixed = Null | Bool(b: bool) | Int(i: int) | Str(s: string) | Other(tag: nat)

  // ---------------------------------------------------------------------
  // strtolower (ASCII, as PHP 8.2 and later define it)
  // ---------------------------------------------------------------------

  predicate IsUpperChar(c: char) {
    'A' <= c <= 'Z'
  }

  /** A capital letter becomes the letter 32 code points above it; anything else is kept. */
  function LowerChar(c: char): (d: char)
    ensures !IsUpperChar(d)
    ensures IsUpperChar(c) ==> d as int == c as int + 32
    ensures !IsUpperChar(c) ==> d == c
  {
    if IsUpperChar(c) then (c as int + 32) as char else c
  }

  /** No ASCII capital letter occurs in `s`. */
  predicate IsLower(s: string) {
    forall i :: 0 <= i < |s| ==> !IsUpperChar(s[i])
  }

  /** `strtolower`: each ASCII capital is replaced by its small letter, every other character kept. */
  function Lower(s: string): (r: string)
    ensures |r| == |s| && IsLower(r)
    ensures forall i :: 0 <= i < |s| ==> if IsUpperChar(s[i]) then r[i] as int == s[i] as int + 32 else r[i] == s[i]
    ensures IsLower(s) ==> r == s
  {
    seq(|s|, i requires 0 <= i < |s| => LowerChar(s[i]))
  }

  /** Two names are the same header name when they agree ignoring ASCII case. */
  predicate SameIgnoringCase(a: string, b: string) {
    Lower(a) == Lower(b)
  }

  lemma LowerIdempotent(s: string)
    ensures Lower(Lower(s)) == Lower(s)
  {
  }

  /** `str_starts_with($s, '//')`. */
  predicate StartsWithDoubleSlash(s: string) {
    |s| >= 2 && s[0] == '/' && s[1] == '/'
  }

  /** `str_ends_with($s, $t)`. */
  predicate EndsWith(s: string, t: string) {
    |t| <= |s| && s[|s| - |t|..] == t
  }

  /** A concatenation ends with its second part. */
  lemma EndsWithConcat(a: string, b: string)
    ensures EndsWith(a + b, b)
  {
  }

  /** `str_starts_with($s, $p)`. */
  predicate StartsWith(s: string, p: string) {
    |p| <= |s| && s[..|p|] == p
  }

  /** A concatenation starts with its first part. */
  lemma StartsWithConcat(a: string, b: string)
    ensures StartsWith(a + b, a)
  {
  }

  // ---------------------------------------------------------------------
  // ltrim($s, $c) for a single character $c
  // ---------------------------------------------------------------------

  /**
   * Removes every leading `c`: what remains is no longer than `s` and does
   * not start with `c` (LTrimSuffix says what was cut off).
   */
  function LTrim(s: string, c: char): (r: string)
    ensures |r| <= |s|
    ensures r == [] || r[0] != c
    decreases |s|
  {
    if |s| > 0 && s[0] == c then LTrim(s[1..], c) else s
  }

  /** LTrim keeps a suffix of `s`, and everything it cuts off is `c`. */
  lemma {:induction false} LTrimSuffix(s: string, c: char)
    ensures LTrim(s, c) == s[|s| - |LTrim(s, c)|..]
    ensures forall i :: 0 <= i < |s| - |LTrim(s, c)| ==> s[i] == c
    decreases |s|
  {
    if |s| > 0 && s[0] == c {
      LTrimSuffix(s[1..], c);
      assert s[1..][|s| - 1 - |LTrim(s, c)|..] == s[|s| - |LTrim(s, c)|..];
      forall i | 1 <= i < |s| - |LTrim(s, c)| ensures s[i] == c {
        assert s[i] == s[1..][i - 1];
      }
    }
  }

  /** Trimming twice removes nothing more than trimming once. */
  lemma LTrimIdempotent(s: string, c: char)
    ensures LTrim(LTrim(s, c), c) == LTrim(s, c)
  {
  }

  /**
   * When the second part does not start with `c`, trimming a concatenation
   * only ever touches the first part.
   */
  lemma {:induction false} LTrimConcat(a: string, b: string, c: char)
    requires b == [] || b[0] != c
    ensures LTrim(a + b, c) == LTrim(a, c) + b
    decreases |a|
  {
    if a == [] {
      assert a + b == b;
    } else if a[0] == c {
      assert (a + b)[0] == c && (a + b)[1..] == a[1..] + b;
      LTrimConcat(a[1..], b, c);
    } else {
      assert (a + b)[0] == a[0];
    }
  }

  /**
   * The same when the first part is not made only of `c`, whatever the
   * second part starts with: the trim stops inside the first part.
   */
  lemma {:induction false} LTrimConcatStops(a: string, b: string, c: char)
    requires LTrim(a, c) != []
    ensures LTrim(a + b, c) == LTrim(a, c) + b
    decreases |a|
  {
    if a[0] == c {
      assert (a + b)[0] == c && (a + b)[1..] == a[1..] + b;
      LTrimConcatStops(a[1..], b, c);
    } else {
      assert (a + b)[0] == a[0];
    }
  }

  /**
   * And when the first part is made only of `c`, the trim runs through all
   * of it and goes on into the second part.
   */
  lemma {:induction false} LTrimConcatThrough(a: string, b: string, c: char)
    requires LTrim(a, c) == []
    ensures LTrim(a + b, c) == LTrim(b, c)
    decreases |a|
  {
    if a == [] {
      assert a + b == b;
    } else {
      assert (a + b)[0] == c && (a + b)[1..] == a[1..] + b;
      LTrimConcatThrough(a[1..], b, c);
    }
  }

  /** One `c` in front of a string that does not start with `c` is exactly what the trim removes. */
  lemma LTrimCons(c: char, p: string)
    requires p == [] || p[0] != c
    ensures LTrim([c] + p, c) == p
  {
    assert ([c] + p)[1..] == p;
  }

  /** If nothing survives the trim, the whole string was made of `c`. */
  lemma LTrimEmpty(s: string, c: char)
    requires LTrim(s, c) == []
    ensures forall i :: 0 <= i < |s| ==> s[i] == c
  {
    LTrimSuffix(s, c);
  }

  // ---------------------------------------------------------------------
  // PHP truthiness of strings, and the string|false to bool coercion
  // ---------------------------------------------------------------------

  /** A PHP string is falsy exactly when it is "" or "0". */
  predicate Falsy(s: string) {
    s == "" || s == "0"
  }

  /**
   * What assigning a `string|false` (None standing for false) to a `bool`
   * property stores, outside strict-types mode.
   */
  function StrToBool(v: Option<string>): (b: bool)
    ensures b <==> v.Some? && v.value != "" && v.value != "0"
  {
    match v
    case None => false
    case Some(s) => !Falsy(s)
  }

  // ---------------------------------------------------------------------
  // implode($sep, $values)
  // ---------------------------------------------------------------------

  function Join(sep: string, vs: seq<string>): (r: string)
    ensures vs == [] ==> r == ""
    ensures |vs| == 1 ==> r == vs[0]
    ensures |vs| > 0 ==> StartsWith(r, vs[0])
  {
    if |vs| == 0 then ""
    else if |vs| == 1 then vs[0]
    else vs[0] + sep + Join(sep, vs[1..])
  }

  /** Joining two non-empty runs is joining each and gluing them with the separator. */
  lemma {:induction false} JoinAppend(sep: string, a: seq<string>, b: seq<string>)
    requires a != [] && b != []
    ensures Join(sep, a + b) == Join(sep, a) + sep + Join(sep, b)
    decreases |a|
  {
    if |a| == 1 {
      assert (a + b)[1..] == b;
    } else {
      assert (a + b)[1..] == a[1..] + b;
      JoinAppend(sep, a[1..], b);
    }
  }

  // ---------------------------------------------------------------------
  // Integer to decimal string, as `'x' . $int` converts it
  // ---------------------------------------------------------------------

  function DigitChar(d: nat): (c: char)
    requires d < 10
    ensures '0' <= c <= '9'
  {
    ('0' as int + d) as char
  }

  predicate IsDigits(s: string) {
    forall i :: 0 <= i < |s| ==> '0' <= s[i] <= '9'
  }

  /** The decimal digits of `n`, without leading zeros. */
  function NatToDecimal(n: nat): (r: string)
    ensures |r| >= 1 && IsDigits(r)
    ensures n > 0 ==> r[0] != '0'
    ensures n == 0 ==> r == "0"
  {
    if n < 10 then [DigitChar(n)] else NatToDecimal(n / 10) + [DigitChar(n % 10)]
  }

  /** The value a string of decimal digits denotes. */
  function DecimalValue(s: string): (n: nat)
    requires IsDigits(s)
  {
    if s == [] then 0 else 10 * DecimalValue(s[..|s| - 1]) + (s[|s| - 1] as int - '0' as int)
  }

  /** Reading back the digits written by NatToDecimal gives the number. */
  lemma {:induction false} DecimalRoundTrip(n: nat)
    ensures DecimalValue(NatToDecimal(n)) == n
  {
    var r := NatToDecimal(n);
    if n >= 10 {
      DecimalRoundTrip(n / 10);
      assert r[..|r| - 1] == NatToDecimal(n / 10);
    }
  }

  /** The decimal text of `n`: its digits, after a `-` when it is negative. */
  function IntToDecimal(n: int): (r: string)
    ensures |r| >= 1
    ensures n >= 0 ==> IsDigits(r) && DecimalValue(r) == n
    ensures n < 0 ==> r[0] == '-' && IsDigits(r[1..]) && DecimalValue(r[1..]) == -n
    ensures n > 0 ==> r[0] != '0'
    ensures n == 0 ==> r == "0"
    ensures n < 0 ==> |r| >= 2 && r[1] != '0'
  {
    if n < 0 then
      var d := NatToDecimal(-n);
      DecimalRoundTrip(-n);
      assert ("-" + d)[1..] == d;
      "-" + d
    else
      DecimalRoundTrip(n);
      NatToDecimal(n)
  }

  // ---------------------------------------------------------------------
  // strpbrk($s, $chars)
  // ---------------------------------------------------------------------

  /**
   * The tail of `s` from the first character that occurs in `chars`, or
   * None (PHP's false) when no character of `s` occurs in `chars`.
   */
  function Strpbrk(s: string, chars: string): (r: Option<string>)
    ensures r.Some? ==> |r.value| > 0 && r.value[0] in chars
    ensures r.Some? ==> |r.value| <= |s| && r.value == s[|s| - |r.value|..]
    ensures r.Some? ==> forall i :: 0 <= i < |s| - |r.value| ==> s[i] !in chars
    ensures r.None? ==> forall i :: 0 <= i < |s| ==> s[i] !in chars
    decreases |s|
  {
    if |s| == 0 then None
    else if s[0] in chars then Some(s)
    else Strpbrk(s[1..], chars)
  }

  /**
   * `(bool) strpbrk($s, $chars)`: true exactly when some character of
   * `chars` occurs in `s`. The tail strpbrk returns starts with such a
   * character, so it is never "" or "0" (unless "0" is itself searched for).
   */
  lemma StrpbrkAsBool(s: string, chars: string)
    requires '0' !in chars
    ensures StrToBool(Strpbrk(s, chars)) <==> exists i :: 0 <= i < |s| && s[i] in chars
  {
    var r := Strpbrk(s, chars);
    if r.Some? {
      var i := |s| - |r.value|;
      assert s[i] == r.value[0];
      assert r.value != "0";
    }
  }
}
