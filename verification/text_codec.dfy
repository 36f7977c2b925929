/**
  Text encodings of the values the store keeps as strings.

  Every field of a Redis hash is a string. talent-match writes timestamps with
  `isoformat()` and reads them with `fromisoformat()`, and writes lists and
  dictionaries with `json.dumps` and reads them with `json.loads`. This model
  keeps what those pairs guarantee to the code (the decoder inverts the encoder,
  and a malformed text fails to decode, including the empty text) and replaces
  their concrete syntax by two simple formats:
  - a timestamp (whole seconds) is written as its decimal digits;
  - a structured value is a sequence of length-prefixed "chunks" (`5:hello`),
    enclosed in brackets `[...]` for a list and braces `{...}` for an object.
*/
module TextCodec {
  import opened Wrappers

  predicate IsDigit(c: char) {
    '0' <= c <= '9'
  }

  predicate AllDigits(s: string) {
    forall i | 0 <= i < |s| :: IsDigit(s[i])
  }

  function DigitChar(d: nat): (c: char)
    requires d < 10
    ensures IsDigit(c)
  {
    (('0' as int) + d) as char
  }

  function DigitValue(c: char): (d: nat)
    requires IsDigit(c)
    ensures d < 10
  {
    (c as int) - ('0' as int)
  }

  /** The decimal representation of `n`, without leading zeros. */
  function Digits(n: nat): (s: string)
    ensures |s| > 0 && AllDigits(s)
    decreases n
  {
    if n < 10 then [DigitChar(n)] else Digits(n / 10) + [DigitChar(n % 10)]
  }

  /** The number a string of decimal digits denotes. */
  function DigitsValue(s: string): nat
    requires AllDigits(s)
  {
    if s == [] then 0 else 10 * DigitsValue(s[..|s| - 1]) + DigitValue(s[|s| - 1])
  }

  /** Parses a non-empty string of decimal digits; anything else is malformed. */
  function ParseNat(s: string): (r: Option<nat>)
    ensures r.Some? <==> |s| > 0 && AllDigits(s)
  {
    if |s| > 0 && AllDigits(s) then Some(DigitsValue(s)) else None
  }

  lemma {:induction false} DigitsValueOfDigits(n: nat)
    ensures DigitsValue(Digits(n)) == n
    decreases n
  {
    if n >= 10 {
      var s := Digits(n / 10) + [DigitChar(n % 10)];
      assert s[..|s| - 1] == Digits(n / 10);
      DigitsValueOfDigits(n / 10);
    }
  }

  /** Decoding the decimal form of a number gives the number back. */
  lemma ParseNatDigits(n: nat)
    ensures ParseNat(Digits(n)) == Some(n)
  {
    DigitsValueOfDigits(n);
  }

  /** The decimal form of a signed integer, with a leading '-' when negative. */
  function IntText(i: int): string {
    if i < 0 then "-" + Digits(-i) else Digits(i)
  }

  function ParseInt(s: string): Option<int> {
    if |s| > 0 && s[0] == '-' then
      match ParseNat(s[1..])
      case Some(n) => Some(-(n as int))
      case None => None
    else
      match ParseNat(s)
      case Some(n) => Some(n)
      case None => None
  }

  lemma ParseIntText(i: int)
    ensures ParseInt(IntText(i)) == Some(i)
  {
    if i < 0 {
      assert IntText(i)[1..] == Digits(-i);
      ParseNatDigits(-i);
    } else {
      ParseNatDigits(i);
      assert IsDigit(Digits(i)[0]);
    }
  }

  // ---------------------------------------------------------------------------
  // Length-prefixed chunks

  /** One chunk: the length of `s` in decimal, a colon, then `s` itself. */
  function Chunk(s: string): string {
    Digits(|s|) + ":" + s
  }

  /** The number of decimal digits at the front of `s`. */
  function LeadingDigits(s: string): (k: nat)
    ensures k <= |s| && AllDigits(s[..k])
    ensures k < |s| ==> !IsDigit(s[k])
  {
    if s == [] || !IsDigit(s[0]) then 0
    else
      var k := 1 + LeadingDigits(s[1..]);
      assert s[..k] == [s[0]] + s[1..][..k - 1];
      k
  }

  /** Reads one chunk off the front of `s`, returning its payload and the rest. */
  function ParseChunk(s: string): (r: Option<(string, string)>)
    ensures r.Some? ==> |r.value.1| < |s|
  {
    var k := LeadingDigits(s);
    if k == 0 || k == |s| || s[k] != ':' then None
    else
      var n := DigitsValue(s[..k]);
      if |s| - (k + 1) < n then None
      else Some((s[k + 1..k + 1 + n], s[k + 1 + n..]))
  }

  lemma {:induction false} LeadingDigitsOfDigits(d: string, rest: string)
    requires AllDigits(d)
    requires rest == [] || !IsDigit(rest[0])
    ensures LeadingDigits(d + rest) == |d|
    decreases |d|
  {
    if d != [] {
      assert (d + rest)[1..] == d[1..] + rest;
      LeadingDigitsOfDigits(d[1..], rest);
    }
  }

  lemma ParseChunkOf(x: string, rest: string)
    ensures ParseChunk(Chunk(x) + rest) == Some((x, rest))
  {
    var d := Digits(|x|);
    var s := Chunk(x) + rest;
    assert s == d + (":" + x + rest);
    LeadingDigitsOfDigits(d, ":" + x + rest);
    assert s[..|d|] == d;
    DigitsValueOfDigits(|x|);
    assert s[|d| + 1..|d| + 1 + |x|] == x;
    assert s[|d| + 1 + |x|..] == rest;
  }

  /** A sequence of strings written as consecutive chunks. */
  function Chunks(xs: seq<string>): string {
    if xs == [] then "" else Chunk(xs[0]) + Chunks(xs[1..])
  }

  /** Splits a whole string into chunks; fails if anything is left over. */
  function ParseChunks(s: string): Option<seq<string>>
    decreases |s|
  {
    if s == [] then Some([])
    else
      match ParseChunk(s)
      case None => None
      case Some((x, rest)) =>
        match ParseChunks(rest)
        case None => None
        case Some(xs) => Some([x] + xs)
  }

  /** Chunk encoding round trip: the chunks of `xs` parse back to `xs`. */
  lemma {:induction false} ParseChunksOf(xs: seq<string>)
    ensures ParseChunks(Chunks(xs)) == Some(xs)
  {
    if xs != [] {
      ParseChunkOf(xs[0], Chunks(xs[1..]));
      ParseChunksOf(xs[1..]);
      assert [xs[0]] + xs[1..] == xs;
    }
  }

  // ---------------------------------------------------------------------------
  // Enclosed texts

  /** `body` between the delimiters `open` and `close`. */
  function Enclose(open: char, body: string, close: char): string {
    [open] + body + [close]
  }

  /** The text between the delimiters, or None when `s` is not so enclosed. */
  function Unenclose(s: string, open: char, close: char): (r: Option<string>)
    ensures r.Some? ==> s == Enclose(open, r.value, close)
  {
    if |s| >= 2 && s[0] == open && s[|s| - 1] == close then Some(s[1..|s| - 1]) else None
  }

  lemma UnencloseOf(open: char, body: string, close: char)
    ensures Unenclose(Enclose(open, body, close), open, close) == Some(body)
  {
    assert Enclose(open, body, close)[1..|body| + 1] == body;
  }

  /** The empty string is neither a list nor an object (as `json.loads("")` fails). */
  lemma EmptyIsNotEnclosed(open: char, close: char)
    ensures Unenclose("", open, close).None?
  {
  }
}
