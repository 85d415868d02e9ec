/**
 * Python text as a sequence of Unicode code points, and the UTF-8 round trip
 * `text.encode('utf-8', 'ignore').decode('utf-8')` with which a chunk cleans
 * its text. A Python `str` may hold lone surrogates (U+D800..U+DFFF), which
 * UTF-8 cannot encode; every other code point encodes.
 */
module Unicode {
  import opened Wrappers

  /** One element of a Python `str`: any code point, lone surrogates included. */
  type CodePoint = c: int | 0 <= c < 0x11_0000

  type Text = seq<CodePoint>

  type Byte = b: int | 0 <= b < 0x100

  /** A Dafny string literal as Python text. */
  function Str(s: string): (r: Text)
    ensures |r| == |s|
    ensures forall i :: 0 <= i < |s| ==> r[i] == s[i] as int
  {
    seq(|s|, i requires 0 <= i < |s| => s[i] as int)
  }

  predicate IsSurrogate(c: CodePoint) {
    0xD800 <= c < 0xE000
  }

  /** Text that UTF-8 can encode without loss. */
  predicate Clean(s: Text) {
    forall i :: 0 <= i < |s| ==> !IsSurrogate(s[i])
  }

  /** The text with every code point UTF-8 cannot encode dropped, the rest kept in order. */
  function Sanitize(s: Text): (r: Text)
    ensures Clean(r)
    ensures |r| <= |s|
    ensures Clean(s) ==> r == s
    ensures forall c :: c in r <==> c in s && !IsSurrogate(c)
  {
    if s == [] then []
    else (if IsSurrogate(s[0]) then [] else [s[0]]) + Sanitize(s[1..])
  }

  lemma SanitizeIdempotent(s: Text)
    ensures Sanitize(Sanitize(s)) == Sanitize(s)
  {
  }

  /** UTF-8 bytes of one code point under the 'ignore' error handler: none for a surrogate. */
  function EncodeChar(c: CodePoint): (r: seq<Byte>)
    ensures IsSurrogate(c) <==> r == []
    ensures |r| <= 4
  {
    if c < 0x80 then [c]
    else if c < 0x800 then [0xC0 + c / 64, 0x80 + c % 64]
    else if IsSurrogate(c) then []
    else if c < 0x1_0000 then [0xE0 + c / 64 / 64, 0x80 + c / 64 % 64, 0x80 + c % 64]
    else [0xF0 + c / 64 / 64 / 64, 0x80 + c / 64 / 64 % 64, 0x80 + c / 64 % 64, 0x80 + c % 64]
  }

  /** `s.encode('utf-8', 'ignore')`. */
  function EncodeIgnore(s: Text): (r: seq<Byte>)
    ensures |r| <= 4 * |s|
  {
    if s == [] then [] else EncodeChar(s[0]) + EncodeIgnore(s[1..])
  }

  predicate IsContinuation(b: Byte) {
    0x80 <= b < 0xC0
  }

  /**
   * Strict UTF-8 decoding of the first character: its code point and the
   * number of bytes it occupies, or None for an overlong form, an encoded
   * surrogate, a value past U+10FFFF or a malformed sequence.
   */
  function DecodeFirst(bs: seq<Byte>): (r: Option<(CodePoint, nat)>)
    ensures r.Some? ==> 1 <= r.value.1 <= |bs| && !IsSurrogate(r.value.0)
  {
    if |bs| == 0 then None
    else
      var lead: int := bs[0];
      if lead < 0x80 then Some((lead, 1))
      else if lead < 0xC0 then None
      else if lead < 0xE0 then
        if |bs| < 2 || !IsContinuation(bs[1]) then None
        else
          var c := (lead - 0xC0) * 64 + (bs[1] as int - 0x80);
          if c < 0x80 then None else Some((c, 2))
      else if lead < 0xF0 then
        if |bs| < 3 || !IsContinuation(bs[1]) || !IsContinuation(bs[2]) then None
        else
          var c := ((lead - 0xE0) * 64 + (bs[1] as int - 0x80)) * 64 + (bs[2] as int - 0x80);
          if c < 0x800 || 0xD800 <= c < 0xE000 then None else Some((c, 3))
      else if lead < 0xF8 then
        if |bs| < 4 || !IsContinuation(bs[1]) || !IsContinuation(bs[2]) || !IsContinuation(bs[3]) then None
        else
          var c := (((lead - 0xF0) * 64 + (bs[1] as int - 0x80)) * 64 + (bs[2] as int - 0x80)) * 64
                   + (bs[3] as int - 0x80);
          if c < 0x1_0000 || 0x11_0000 <= c then None else Some((c, 4))
      else None
  }

  /** `bs.decode('utf-8')` in strict mode: None where Python raises UnicodeDecodeError. */
  function Decode(bs: seq<Byte>): (r: Option<Text>)
    ensures r.Some? ==> Clean(r.value)
    decreases |bs|
  {
    if bs == [] then Some([])
    else
      match DecodeFirst(bs)
      case None => None
      case Some((c, n)) =>
        match Decode(bs[n..])
        case None => None
        case Some(rest) => Some([c] + rest)
  }

  /** The decoder reads back exactly the character the encoder wrote, whatever follows it. */
  lemma DecodeFirstOfEncoded(c: CodePoint, rest: seq<Byte>)
    requires !IsSurrogate(c)
    ensures DecodeFirst(EncodeChar(c) + rest) == Some((c, |EncodeChar(c)|))
  {
    if c < 0x80 {
    } else if c < 0x800 {
      DecodeTwoBytes(c, rest);
    } else if c < 0x1_0000 {
      DecodeThreeBytes(c, rest);
    } else {
      DecodeFourBytes(c, rest);
    }
  }

  lemma DecodeTwoBytes(c: CodePoint, rest: seq<Byte>)
    requires 0x80 <= c < 0x800
    ensures DecodeFirst(EncodeChar(c) + rest) == Some((c, 2))
  {
    var bs := EncodeChar(c) + rest;
    assert bs[0] == 0xC0 + c / 64 && bs[1] == 0x80 + c % 64;
    assert c == c / 64 * 64 + c % 64;
  }

  lemma DecodeThreeBytes(c: CodePoint, rest: seq<Byte>)
    requires 0x800 <= c < 0x1_0000 && !IsSurrogate(c)
    ensures DecodeFirst(EncodeChar(c) + rest) == Some((c, 3))
  {
    var bs := EncodeChar(c) + rest;
    var q1 := c / 64;
    var q2 := q1 / 64;
    assert bs[0] == 0xE0 + q2 && bs[1] == 0x80 + q1 % 64 && bs[2] == 0x80 + c % 64;
    assert c == q1 * 64 + c % 64;
    assert q1 == q2 * 64 + q1 % 64;
  }

  lemma DecodeFourBytes(c: CodePoint, rest: seq<Byte>)
    requires 0x1_0000 <= c
    ensures DecodeFirst(EncodeChar(c) + rest) == Some((c, 4))
  {
    var bs := EncodeChar(c) + rest;
    var q1 := c / 64;
    var q2 := q1 / 64;
    var q3 := q2 / 64;
    assert bs[0] == 0xF0 + q3 && bs[1] == 0x80 + q2 % 64 && bs[2] == 0x80 + q1 % 64 && bs[3] == 0x80 + c % 64;
    assert c == q1 * 64 + c % 64;
    assert q1 == q2 * 64 + q1 % 64;
    assert q2 == q3 * 64 + q2 % 64;
  }

  /**
   * Chunk sanitising as the source writes it: encoding with 'ignore' and
   * decoding again never fails and yields exactly Sanitize.
   */
  lemma {:induction false} DecodeEncodeIgnore(s: Text)
    ensures Decode(EncodeIgnore(s)) == Some(Sanitize(s))
  {
    if s != [] {
      DecodeEncodeIgnore(s[1..]);
      var e := EncodeChar(s[0]);
      var tail := EncodeIgnore(s[1..]);
      if IsSurrogate(s[0]) {
        assert EncodeIgnore(s) == tail && Sanitize(s) == Sanitize(s[1..]);
      } else {
        DecodeFirstOfEncoded(s[0], tail);
        assert (e + tail)[|e|..] == tail;
      }
    }
  }
}
