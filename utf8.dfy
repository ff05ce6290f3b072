/**
 * UTF-8, as `String.getBytes(StandardCharsets.UTF_8)` produces it: the bytes of each
 * character in turn, one to four per character. Bytes are written as their unsigned
 * values 0 to 255 (Java's signed `byte` holds the same bit patterns).
 */
module Utf8 {

  type byte = b: int | 0 <= b < 0x100

  /** The number of bytes of the UTF-8 encoding of one character. */
  function Width(c: char): (r: nat)
    ensures 1 <= r <= 4
  {
    if c as int < 0x80 then 1
    else if c as int < 0x800 then 2
    else if c as int < 0x10000 then 3
    else 4
  }

  /** `s.getBytes(UTF_8).length`. */
  function Length(s: string): (r: nat)
    ensures |s| <= r <= 4 * |s|
  {
    if s == [] then 0 else Length(s[..|s| - 1]) + Width(s[|s| - 1])
  }

  lemma {:induction false} LengthConcat(a: string, b: string)
    ensures Length(a + b) == Length(a) + Length(b)
    decreases |b|
  {
    if b != [] {
      assert (a + b)[..|a + b| - 1] == a + b[..|b| - 1];
      LengthConcat(a, b[..|b| - 1]);
    } else {
      assert a + b == a;
    }
  }

  /** A continuation byte: `10` followed by six bits of the code point. */
  function Tail(bits: int): (r: byte)
    requires 0 <= bits
    ensures 0x80 <= r < 0xC0
  {
    0x80 + bits % 64
  }

  /**
   * The encoding of one character: a lead byte carrying the high bits, then
   * continuation bytes. Only the character U+0000 encodes to a byte 0, so the last
   * byte is 0 exactly for that character.
   */
  function EncodeChar(c: char): (r: seq<byte>)
    ensures |r| == Width(c)
    ensures r[|r| - 1] == 0 <==> c == '\0'
    ensures c as int < 0x80 ==> r == [c as int]
  {
    var n := c as int;
    if n < 0x80 then [n]
    else if n < 0x800 then [0xC0 + n / 64, Tail(n)]
    else if n < 0x10000 then [0xE0 + n / 4096, Tail(n / 64), Tail(n)]
    else [0xF0 + n / 262144, Tail(n / 4096), Tail(n / 64), Tail(n)]
  }

  /** `s.getBytes(UTF_8)`. */
  function Encode(s: string): (r: seq<byte>)
    ensures |r| == Length(s)
  {
    if s == [] then [] else Encode(s[..|s| - 1]) + EncodeChar(s[|s| - 1])
  }

  /** Encoding text and then a character is encoding the text with that character appended. */
  lemma EncodeAppend(s: string, c: char)
    ensures Encode(s + [c]) == Encode(s) + EncodeChar(c)
  {
    assert (s + [c])[..|s + [c]| - 1] == s;
  }

  /** A non-empty text's encoding ends in a byte 0 exactly when the text ends with U+0000. */
  lemma EncodeLastByte(s: string)
    requires s != []
    ensures var e := Encode(s);
            e != [] && (e[|e| - 1] == 0 <==> s[|s| - 1] == '\0')
  {
    var e := Encode(s);
    var t := EncodeChar(s[|s| - 1]);
    assert e == Encode(s[..|s| - 1]) + t;
    assert e[|e| - 1] == t[|t| - 1];
  }

  /** Appending U+0000 to the text appends the single byte 0 to its encoding. */
  lemma EncodeAppendNul(s: string)
    ensures Encode(s + "\0") == Encode(s) + [0]
  {
    EncodeAppend(s, '\0');
  }
}
