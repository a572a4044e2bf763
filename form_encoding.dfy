/**
 * `urllib.parse.quote_plus(query)` as the search script calls it (no extra
 * safe characters): the query is encoded to UTF-8 (RFC 3629), every byte
 * outside the unreserved set of section 2.3 of RFC 3986 is written as `%XX`
 * with upper-case hex digits (section 2.1), and the space byte becomes `+`
 * (HTML form encoding). The decoder beside it is the inverse the server side
 * applies; the round-trip lemmas show that no two queries share an encoding.
 */
module FormEncoding {

  import opened Wrappers

  type Byte = b: int | 0 <= b < 256

  // ---------------------------------------------------------------------------
  // UTF-8
  // ---------------------------------------------------------------------------

  /** A Unicode scalar value: a code point that is not a surrogate. */
  predicate IsScalar(n: int)
  {
    0 <= n < 0xD800 || 0xE000 <= n < 0x11_0000
  }

  /** The UTF-8 bytes of one character (section 3 of RFC 3629). */
  function Utf8(c: char): (bs: seq<Byte>)
    ensures 1 <= |bs| <= 4
  {
    var n := c as int;
    if n < 0x80 then [n]
    else if n < 0x800 then [0xC0 + n / 64, 0x80 + n % 64]
    else if n < 0x1_0000 then [0xE0 + n / 4096, 0x80 + (n / 64) % 64, 0x80 + n % 64]
    else [0xF0 + n / 262144, 0x80 + (n / 4096) % 64, 0x80 + (n / 64) % 64, 0x80 + n % 64]
  }

  /** `s.encode('utf-8')`: one to four bytes per character. */
  function Utf8Encode(s: string): (bs: seq<Byte>)
    ensures |s| <= |bs| <= 4 * |s|
  {
    if s == [] then [] else Utf8(s[0]) + Utf8Encode(s[1..])
  }

  predicate IsContinuation(b: Byte)
  {
    0x80 <= b < 0xC0
  }

  /** Number of bytes announced by the lead byte of a UTF-8 sequence, 0 for a byte that cannot lead. */
  function SequenceLength(b: Byte): nat
  {
    if b < 0x80 then 1
    else if 0xC0 <= b < 0xE0 then 2
    else if 0xE0 <= b < 0xF0 then 3
    else if 0xF0 <= b < 0xF8 then 4
    else 0
  }

  /** The code point carried by one complete UTF-8 sequence. */
  function CodePoint(bs: seq<Byte>): int
    requires 1 <= |bs| <= 4
  {
    var b := seq(|bs|, i requires 0 <= i < |bs| => bs[i] as int);
    if |b| == 1 then b[0]
    else if |b| == 2 then (b[0] - 0xC0) * 64 + (b[1] - 0x80)
    else if |b| == 3 then (b[0] - 0xE0) * 4096 + (b[1] - 0x80) * 64 + (b[2] - 0x80)
    else (b[0] - 0xF0) * 262144 + (b[1] - 0x80) * 4096 + (b[2] - 0x80) * 64 + (b[3] - 0x80)
  }

  /** The smallest code point a sequence of `len` bytes may carry: a longer sequence than needed is malformed. */
  function ShortestFrom(len: nat): int
  {
    if len == 2 then 0x80 else if len == 3 then 0x800 else if len == 4 then 0x1_0000 else 0
  }

  /** Decodes the first character of `bs`, with the number of bytes it used. */
  function DecodeFirst(bs: seq<Byte>): (r: Option<(char, nat)>)
    requires bs != []
    ensures r.Some? ==> 1 <= r.value.1 <= |bs|
  {
    var len := SequenceLength(bs[0]);
    if len == 0 || |bs| < len then None
    else if exists i :: 1 <= i < len && !IsContinuation(bs[i]) then None
    else
      var n := CodePoint(bs[..len]);
      if IsScalar(n) && ShortestFrom(len) <= n then Some((n as char, len)) else None
  }

  /**
   * `bs.decode('utf-8')`, `None` where Python raises: a byte that cannot
   * lead, a missing continuation byte, a surrogate, a code point past
   * U+10FFFF, or an overlong form.
   */
  function Utf8Decode(bs: seq<Byte>): Option<string>
    decreases |bs|
  {
    if bs == [] then Some([])
    else
      match DecodeFirst(bs)
      case None => None
      case Some((c, len)) =>
        match Utf8Decode(bs[len..])
        case None => None
        case Some(rest) => Some([c] + rest)
  }

  /** The two-byte overlong form of U+0000 is malformed, as Python's decoder holds. */
  lemma OverlongRejected()
    ensures Utf8Decode([0xC0, 0x80]) == None
  {
    assert CodePoint([0xC0, 0x80]) == 0;
  }

  lemma DivMod64(x: nat)
    ensures x == (x / 64) * 64 + x % 64
    ensures x / 4096 == (x / 64) / 64
    ensures x / 262144 == (x / 4096) / 64
  {
  }

  /** The bytes of a character carry its code point back, under the lead byte's announced length. */
  lemma CodePointUtf8(c: char)
    ensures SequenceLength(Utf8(c)[0]) == |Utf8(c)|
    ensures forall i :: 1 <= i < |Utf8(c)| ==> IsContinuation(Utf8(c)[i])
    ensures CodePoint(Utf8(c)) == c as int
  {
    var n := c as int;
    DivMod64(n);
    DivMod64(n / 64);
    DivMod64(n / 4096);
  }

  /** The decoder reads back exactly the character whose bytes lead the input. */
  lemma DecodeFirstUtf8(c: char, rest: seq<Byte>)
    ensures DecodeFirst(Utf8(c) + rest) == Some((c, |Utf8(c)|))
  {
    var bs := Utf8(c) + rest;
    var len := |Utf8(c)|;
    CodePointUtf8(c);
    assert bs[..len] == Utf8(c);
    assert bs[0] == Utf8(c)[0];
    assert forall i :: 1 <= i < len ==> bs[i] == Utf8(c)[i];
  }

  /** UTF-8 decoding undoes UTF-8 encoding. */
  lemma {:induction false} Utf8RoundTrip(s: string)
    ensures Utf8Decode(Utf8Encode(s)) == Some(s)
  {
    if s != [] {
      var bs := Utf8Encode(s);
      DecodeFirstUtf8(s[0], Utf8Encode(s[1..]));
      assert bs[|Utf8(s[0])|..] == Utf8Encode(s[1..]);
      Utf8RoundTrip(s[1..]);
      assert [s[0]] + s[1..] == s;
    }
  }

  // ---------------------------------------------------------------------------
  // Form encoding of bytes
  // ---------------------------------------------------------------------------

  /** Letters, digits and `_.-~`: the characters `quote` never escapes (section 2.3 of RFC 3986). */
  predicate IsUnreservedChar(c: char)
  {
    || ('A' <= c <= 'Z') || ('a' <= c <= 'z') || ('0' <= c <= '9')
    || c == '_' || c == '.' || c == '-' || c == '~'
  }

  predicate IsUnreserved(b: Byte)
  {
    IsUnreservedChar(b as char)
  }

  /** The characters an encoded query may contain. */
  predicate IsFormChar(c: char)
  {
    IsUnreservedChar(c) || c == '+' || c == '%'
  }

  /** Upper-case hex digit, as `quote` writes it after `%`. */
  function HexDigit(d: nat): (c: char)
    requires d < 16
    ensures IsUnreservedChar(c)
  {
    if d < 10 then ('0' as int + d) as char else ('A' as int + d - 10) as char
  }

  function HexValue(c: char): Option<nat>
  {
    if '0' <= c <= '9' then Some(c as int - '0' as int)
    else if 'A' <= c <= 'F' then Some(c as int - 'A' as int + 10)
    else None
  }

  /** One byte in form encoding: `+` for a space, the byte itself when unreserved, `%XX` otherwise. */
  function EncodeByte(b: Byte): (r: string)
    ensures forall i :: 0 <= i < |r| ==> IsFormChar(r[i])
  {
    if b == ' ' as int then "+"
    else if IsUnreserved(b) then [b as char]
    else ['%', HexDigit(b / 16), HexDigit(b % 16)]
  }

  /** `quote_from_bytes` with `safe=''`, followed by the space-to-plus rule of `quote_plus`. */
  function QuoteBytes(bs: seq<Byte>): (r: string)
    ensures forall i :: 0 <= i < |r| ==> IsFormChar(r[i])
  {
    if bs == [] then "" else EncodeByte(bs[0]) + QuoteBytes(bs[1..])
  }

  /** `quote_plus(s)`: every character of the result is unreserved, `+` or `%`. */
  function QuotePlus(s: string): (r: string)
    ensures forall i :: 0 <= i < |r| ==> IsFormChar(r[i])
  {
    QuoteBytes(Utf8Encode(s))
  }

  function Prepend(b: Byte, r: Option<seq<Byte>>): Option<seq<Byte>>
  {
    match r
    case None => None
    case Some(bs) => Some([b] + bs)
  }

  /**
   * The strict inverse of `QuoteBytes`: `+` is a space, `%XX` with upper-case
   * hex digits a byte, an unreserved character itself; anything else is
   * malformed. Python's `unquote_plus` is more lenient (lower-case hex
   * digits, other characters passed through); this decoder only reads what
   * `quote_plus` writes.
   */
  function UnquoteBytes(s: string): Option<seq<Byte>>
    decreases |s|
  {
    if s == [] then Some([])
    else if s[0] == '+' then Prepend(' ' as int, UnquoteBytes(s[1..]))
    else if s[0] == '%' then
      if |s| < 3 then None
      else
        match (HexValue(s[1]), HexValue(s[2]))
        case (Some(hi), Some(lo)) => Prepend(hi * 16 + lo, UnquoteBytes(s[3..]))
        case _ => None
    else if IsUnreservedChar(s[0]) then Prepend(s[0] as int, UnquoteBytes(s[1..]))
    else None
  }

  /** The strict inverse of `quote_plus`: form decoding followed by UTF-8 decoding. */
  function UnquotePlus(s: string): Option<string>
  {
    match UnquoteBytes(s)
    case None => None
    case Some(bs) => Utf8Decode(bs)
  }

  lemma UnquoteEncodedByte(b: Byte, rest: string)
    ensures UnquoteBytes(EncodeByte(b) + rest) == Prepend(b, UnquoteBytes(rest))
  {
    var s := EncodeByte(b) + rest;
    if b == ' ' as int {
      assert s[0] == '+' && s[1..] == rest;
    } else if IsUnreserved(b) {
      assert s[0] == b as char && s[1..] == rest;
    } else {
      var hi, lo := b / 16, b % 16;
      assert s[0] == '%' && s[1] == HexDigit(hi) && s[2] == HexDigit(lo) && s[3..] == rest;
      assert HexValue(HexDigit(hi)) == Some(hi) && HexValue(HexDigit(lo)) == Some(lo);
    }
  }

  /** Form decoding undoes form encoding, byte for byte. */
  lemma {:induction false} UnquoteQuoteBytes(bs: seq<Byte>)
    ensures UnquoteBytes(QuoteBytes(bs)) == Some(bs)
  {
    if bs != [] {
      UnquoteEncodedByte(bs[0], QuoteBytes(bs[1..]));
      UnquoteQuoteBytes(bs[1..]);
      assert [bs[0]] + bs[1..] == bs;
    }
  }

  /** The server recovers the exact query from `quote_plus(query)`. */
  lemma QuotePlusRoundTrip(s: string)
    ensures UnquotePlus(QuotePlus(s)) == Some(s)
  {
    UnquoteQuoteBytes(Utf8Encode(s));
    Utf8RoundTrip(s);
  }

  /** Two different queries never produce the same URL parameter. */
  lemma QuotePlusInjective(s: string, t: string)
    requires QuotePlus(s) == QuotePlus(t)
    ensures s == t
  {
    QuotePlusRoundTrip(s);
    QuotePlusRoundTrip(t);
  }
}
