/** UTF-8 as Go's range loop decodes it, beside the syntax of section 4 of RFC 3629. */
module Utf8 {
  type byte = x: int | 0 <= x < 256

  const REPLACEMENT: int := 0xFFFD

  predicate In(b: int, lo: int, hi: int) {
    lo <= b <= hi
  }

  predicate Tail(b: byte) {
    In(b, 0x80, 0xBF)
  }

  // UTF8-1, UTF8-2, UTF8-3 and UTF8-4 of RFC 3629, section 4.

  predicate Utf8One(c: seq<byte>) {
    |c| == 1 && In(c[0], 0x00, 0x7F)
  }

  predicate Utf8Two(c: seq<byte>) {
    |c| == 2 && In(c[0], 0xC2, 0xDF) && Tail(c[1])
  }

  predicate Utf8Three(c: seq<byte>) {
    |c| == 3 && Tail(c[2]) &&
    (|| (c[0] == 0xE0 && In(c[1], 0xA0, 0xBF))
     || (In(c[0], 0xE1, 0xEC) && Tail(c[1]))
     || (c[0] == 0xED && In(c[1], 0x80, 0x9F))
     || (In(c[0], 0xEE, 0xEF) && Tail(c[1])))
  }

  predicate Utf8Four(c: seq<byte>) {
    |c| == 4 && Tail(c[2]) && Tail(c[3]) &&
    (|| (c[0] == 0xF0 && In(c[1], 0x90, 0xBF))
     || (In(c[0], 0xF1, 0xF3) && Tail(c[1]))
     || (c[0] == 0xF4 && In(c[1], 0x80, 0x8F)))
  }

  /** One character, encoded. */
  predicate WellFormedChar(c: seq<byte>) {
    Utf8One(c) || Utf8Two(c) || Utf8Three(c) || Utf8Four(c)
  }

  /** The encoding of U+FFFD, which a decoder also yields for every invalid byte. */
  predicate IsReplacement(c: seq<byte>) {
    c == [0xEF, 0xBF, 0xBD]
  }

  datatype Rune = Rune(value: int, size: nat)

  /** The first rune of a non-empty string: U+FFFD of size one where the bytes are invalid. */
  function DecodeRune(s: seq<byte>): (r: Rune)
    requires s != []
    ensures 1 <= r.size <= |s|
  {
    var invalid := Rune(REPLACEMENT, 1);
    var b: int := s[0];
    if b < 0x80 then
      Rune(b, 1)
    else if b < 0xC2 || 0xF4 < b then
      invalid
    else
      var lo := if b == 0xE0 then 0xA0 else if b == 0xF0 then 0x90 else 0x80;
      var hi := if b == 0xED then 0x9F else if b == 0xF4 then 0x8F else 0xBF;
      if |s| < 2 || !In(s[1], lo, hi) then invalid
      else if b < 0xE0 then Rune((b - 0xC0) * 0x40 + (s[1] as int - 0x80), 2)
      else if |s| < 3 || !Tail(s[2]) then invalid
      else if b < 0xF0 then Rune((b - 0xE0) * 0x1000 + (s[1] as int - 0x80) * 0x40 + (s[2] as int - 0x80), 3)
      else if |s| < 4 || !Tail(s[3]) then invalid
      else
        Rune((b - 0xF0) * 0x4_0000 + (s[1] as int - 0x80) * 0x1000
             + (s[2] as int - 0x80) * 0x40 + (s[3] as int - 0x80), 4)
  }

  /** A well-formed character decodes whole, whatever follows it, and gives U+FFFD only if it is
      U+FFFD. */
  lemma CharDecodes(c: seq<byte>, rest: seq<byte>)
    requires WellFormedChar(c)
    ensures DecodeRune(c + rest).size == |c|
    ensures DecodeRune(c + rest).value == REPLACEMENT <==> IsReplacement(c)
  {
    var s := c + rest;
    assert s[..|c|] == c;
    assert s[0] == c[0];
    assert |c| >= 2 ==> s[1] == c[1];
    assert |c| >= 3 ==> s[2] == c[2];
    assert |c| >= 4 ==> s[3] == c[3];
  }

  /** A character cut short decodes to U+FFFD. */
  lemma CutCharIsInvalid(c: seq<byte>, k: nat)
    requires WellFormedChar(c) && 0 < k < |c|
    ensures DecodeRune(c[..k]).value == REPLACEMENT
  {
    assert c[..k][0] == c[0];
    assert k >= 2 ==> c[..k][1] == c[1];
    assert k >= 3 ==> c[..k][2] == c[2];
  }

  /** What decodes to anything but U+FFFD is a well-formed character. */
  lemma DecodedIsChar(s: seq<byte>)
    requires s != [] && DecodeRune(s).value != REPLACEMENT
    ensures WellFormedChar(s[..DecodeRune(s).size]) && !IsReplacement(s[..DecodeRune(s).size])
  {
    var c := s[..DecodeRune(s).size];
    assert WellFormedChar(c);
    assert s == c + s[|c|..];
    CharDecodes(c, s[|c|..]);
  }
}
