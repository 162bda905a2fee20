/** Bytes, little-endian integers and UTF-8, as the wire formats use them. */
module Bytes {

  type byte = b: int | 0 <= b < 256
  type u32 = n: int | 0 <= n < 0x1_0000_0000
  type u16 = n: int | 0 <= n < 0x1_0000

  /** The number of values of a 32-bit counter. */
  const U32_SPAN: int := 0x1_0000_0000

  datatype Option<+T> = None | Some(value: T)

  function LE32(n: u32): (bs: seq<byte>)
    ensures |bs| == 4
  {
    [n % 0x100, n / 0x100 % 0x100, n / 0x1_0000 % 0x100, n / 0x100_0000]
  }

  function FromLE32(bs: seq<byte>): u32
    requires |bs| == 4
  {
    var b0: int, b1: int, b2: int, b3: int := bs[0], bs[1], bs[2], bs[3];
    b0 + 0x100 * b1 + 0x1_0000 * b2 + 0x100_0000 * b3
  }

  function LE16(n: u16): (bs: seq<byte>)
    ensures |bs| == 2
  {
    [n % 0x100, n / 0x100]
  }

  function FromLE16(bs: seq<byte>): u16
    requires |bs| == 2
  {
    var b0: int, b1: int := bs[0], bs[1];
    b0 + 0x100 * b1
  }

  /** The low byte comes first. */
  lemma LowByteFirst(n: u32)
    ensures LE32(n)[0] == n % 0x100 && LE32(n / 0x100) == LE32(n)[1..] + [0]
  {
    var q1, q2, q3 := n / 0x100, n / 0x1_0000, n / 0x100_0000;
    assert q1 / 0x100 == q2 && q1 / 0x1_0000 == q3 && q1 / 0x100_0000 == 0;
  }

  lemma LE32RoundTrip(n: u32)
    ensures FromLE32(LE32(n)) == n
  {
    var q1, q2, q3 := n / 0x100, n / 0x1_0000, n / 0x100_0000;
    assert q1 / 0x100 == q2 && q2 / 0x100 == q3;
  }

  lemma FromLE32RoundTrip(bs: seq<byte>)
    requires |bs| == 4
    ensures LE32(FromLE32(bs)) == bs
  {
    var n: int := FromLE32(bs);
    var b1: int, b2: int, b3: int := bs[1], bs[2], bs[3];
    assert n / 0x100 == b1 + 0x100 * b2 + 0x1_0000 * b3;
    assert n / 0x1_0000 == b2 + 0x100 * b3;
    assert n / 0x100_0000 == b3;
  }

  lemma SmallMod(n: nat, m: nat)
    requires n < m
    ensures n % m == n
  {}

  /** The bytes of an ASCII text. */
  function Ascii(text: string): (bs: seq<byte>)
    requires forall i :: 0 <= i < |text| ==> text[i] as int < 0x80
    ensures |bs| == |text|
  {
    seq(|text|, i requires 0 <= i < |text| => text[i] as int)
  }

  // ---- UTF-8, as the grammar in section 4 of RFC 3629 gives it ----

  predicate Utf8Tail(b: byte) { 0x80 <= b <= 0xBF }

  /** The length of the UTF-8 character at the front of `s`, or 0 when there is none. */
  function Utf8CharLen(s: seq<byte>): (n: nat)
    requires s != []
    ensures n <= |s|
  {
    if s[0] <= 0x7F then 1
    else if |s| >= 2 && 0xC2 <= s[0] <= 0xDF && Utf8Tail(s[1]) then 2
    else if |s| >= 3 && Utf8Tail(s[2]) &&
            ((s[0] == 0xE0 && 0xA0 <= s[1] <= 0xBF) || (0xE1 <= s[0] <= 0xEC && Utf8Tail(s[1])) ||
             (s[0] == 0xED && 0x80 <= s[1] <= 0x9F) || (0xEE <= s[0] <= 0xEF && Utf8Tail(s[1]))) then 3
    else if |s| >= 4 && Utf8Tail(s[2]) && Utf8Tail(s[3]) &&
            ((s[0] == 0xF0 && 0x90 <= s[1] <= 0xBF) || (0xF1 <= s[0] <= 0xF3 && Utf8Tail(s[1])) ||
             (s[0] == 0xF4 && 0x80 <= s[1] <= 0x8F)) then 4
    else 0
  }

  predicate ValidUtf8(s: seq<byte>)
    decreases |s|
  {
    s == [] || (Utf8CharLen(s) > 0 && ValidUtf8(s[Utf8CharLen(s)..]))
  }

  /** Text of ASCII characters is UTF-8. */
  lemma {:induction false} AsciiIsUtf8(s: seq<byte>)
    requires forall i :: 0 <= i < |s| ==> s[i] < 0x80
    ensures ValidUtf8(s)
  {
    if s != [] {
      AsciiIsUtf8(s[1..]);
    }
  }

  /** Two-, three- and four-byte characters are; overlong forms, surrogates, stray tails and cut characters are not. */
  lemma Utf8Examples()
    ensures ValidUtf8([0xC3, 0xA9]) && ValidUtf8([0xE2, 0x82, 0xAC]) && ValidUtf8([0xF0, 0x9F, 0x98, 0x80])
    ensures !ValidUtf8([0xC0, 0x80]) && !ValidUtf8([0xED, 0xA0, 0x80]) && !ValidUtf8([0x80]) && !ValidUtf8([0xE2, 0x82])
  {
    assert [0xC3, 0xA9][2..] == [] && [0xE2, 0x82, 0xAC][3..] == [] && [0xF0, 0x9F, 0x98, 0x80][4..] == [];
  }
}
