/** The quote's dedup key: Node's `Buffer.from(text).toString('base64')`,
    i.e. the UTF-8 bytes of the text in standard padded base64. */
module Base64 {

  type byte = b: int | 0 <= b < 256

  /** The UTF-8 encoding of one Unicode scalar value. */
  function Utf8Char(c: char): (bs: seq<byte>)
    ensures 1 <= |bs| <= 4
  {
    var n := c as int;
    if n < 0x80 then [n]
    else if n < 0x800 then [0xC0 + n / 64, 0x80 + n % 64]
    else if n < 0x10000 then [0xE0 + n / 4096, 0x80 + n / 64 % 64, 0x80 + n % 64]
    else [0xF0 + n / 262144, 0x80 + n / 4096 % 64, 0x80 + n / 64 % 64, 0x80 + n % 64]
  }

  /** The UTF-8 encoding of a string; it is empty exactly when the string is. */
  function Utf8(s: string): (bs: seq<byte>)
    ensures |s| <= |bs| <= 4 * |s|
  {
    if |s| == 0 then [] else Utf8Char(s[0]) + Utf8(s[1..])
  }

  const Pad: char := '='

  /** A character base64 output can contain: the 64 digits `A`-`Z`, `a`-`z`,
      `0`-`9`, `+`, `/`, and the pad `=`. */
  predicate IsBase64Char(c: char) {
    'A' <= c <= 'Z' || 'a' <= c <= 'z' || '0' <= c <= '9' || c == '+' || c == '/' || c == Pad
  }

  /** The base64 digit of a six-bit value. */
  function Sextet(v: int): (c: char)
    requires 0 <= v < 64
    ensures IsBase64Char(c) && c != Pad
  {
    if v < 26 then ('A' as int + v) as char
    else if v < 52 then ('a' as int + (v - 26)) as char
    else if v < 62 then ('0' as int + (v - 52)) as char
    else if v == 62 then '+'
    else '/'
  }

  /** Four digits for three bytes. */
  function Group(b0: byte, b1: byte, b2: byte): (s: string)
    ensures |s| == 4 && forall c | c in s :: IsBase64Char(c)
  {
    [Sextet(b0 / 4), Sextet(b0 % 4 * 16 + b1 / 16), Sextet(b1 % 16 * 4 + b2 / 64), Sextet(b2 % 64)]
  }

  /** The padded final group of one or two bytes. */
  function LastGroup(bs: seq<byte>): (s: string)
    requires 1 <= |bs| <= 2
    ensures |s| == 4 && forall c | c in s :: IsBase64Char(c)
  {
    if |bs| == 1 then [Sextet(bs[0] / 4), Sextet(bs[0] % 4 * 16), Pad, Pad]
    else [Sextet(bs[0] / 4), Sextet(bs[0] % 4 * 16 + bs[1] / 16), Sextet(bs[1] % 16 * 4), Pad]
  }

  /** Standard base64 with `=` padding: every three bytes become four
      characters, a final group of one or two bytes is padded to four. */
  function Encode(bs: seq<byte>): (s: string)
    ensures |s| == 4 * ((|bs| + 2) / 3)
    ensures forall c | c in s :: IsBase64Char(c)
    decreases |bs|
  {
    if |bs| == 0 then []
    else if |bs| <= 2 then LastGroup(bs)
    else Group(bs[0], bs[1], bs[2]) + Encode(bs[3..])
  }

  /** The hash used as the dedup key: it never contains a line break, and it
      is empty exactly when the text is. */
  function Hash(text: string): (h: string)
    ensures '\n' !in h
    ensures h == [] <==> text == []
  {
    Encode(Utf8(text))
  }
}
