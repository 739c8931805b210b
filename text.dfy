/** Text helpers the decoder relies on: two-digit lowercase hexadecimal (the
    `{:02x}` format), UTF-8 well-formedness (what `String::from_utf8` accepts)
    and ASCII lower-casing. */
module Text {
  import opened Common

  const HexDigits: string := "0123456789abcdef"

  function HexDigit(n: nat): (c: char)
    requires n < 16
  {
    HexDigits[n]
  }

  /** Inverse of `HexDigit` on lowercase hexadecimal digits. */
  function HexValue(c: char): (r: Option<nat>)
    ensures r.Some? ==> r.value < 16 && HexDigit(r.value) == c
  {
    if '0' <= c <= '9' then Some(c as int - '0' as int)
    else if 'a' <= c <= 'f' then Some(c as int - 'a' as int + 10)
    else None
  }

  /** `format!("{:02x}", b)`: exactly two lowercase hexadecimal digits. */
  function Hex2(b: byte): (r: string)
    ensures |r| == 2
  {
    [HexDigit(b as int / 16), HexDigit(b as int % 16)]
  }

  /** Reads two hexadecimal digits back into an octet. */
  function ParseHex2(s: string): (r: Option<byte>)
  {
    if |s| != 2 then None
    else match (HexValue(s[0]), HexValue(s[1]))
      case (Some(hi), Some(lo)) => Some(OctetOf(hi * 16 + lo))
      case _ => None
  }

  lemma HexDigitRoundTrip(n: nat)
    requires n < 16
    ensures HexValue(HexDigit(n)) == Some(n)
  {
  }

  /** Two-digit formatting loses nothing: it can be read back. */
  lemma Hex2RoundTrip(b: byte)
    ensures ParseHex2(Hex2(b)) == Some(b)
  {
    var n := b as int;
    var hi, lo := n / 16, n % 16;
    HexDigitRoundTrip(hi);
    HexDigitRoundTrip(lo);
    assert hi * 16 + lo == n;
    OctetOfValue(b);
  }

  lemma Hex2Examples()
    ensures Hex2(0x00) == "00" && Hex2(0x0c) == "0c"
  {
  }

  /** No hexadecimal group contains a colon, so groups can be split on it. */
  lemma Hex2HasNoColon(b: byte)
    ensures ':' !in Hex2(b)
  {
    HexDigitRoundTrip(b as int / 16);
    HexDigitRoundTrip(b as int % 16);
    assert HexValue(':') == None;
  }

  lemma Hex2Injective(a: byte, b: byte)
    ensures Hex2(a) == Hex2(b) ==> a == b
  {
    Hex2RoundTrip(a);
    Hex2RoundTrip(b);
  }

  predicate IsContinuation(b: byte)
  {
    0x80 <= b <= 0xBF
  }

  /** Length of the well-formed UTF-8 sequence that starts `s`, following
      the table of well-formed byte sequences of RFC 3629 (no overlong forms,
      no surrogates, nothing above U+10FFFF), or 0 when `s` does not start
      with one. */
  function Utf8SequenceLength(s: seq<byte>): (n: nat)
    requires |s| > 0
    ensures n <= 4 && n <= |s|
  {
    var b0 := s[0];
    if b0 < 0x80 then 1
    else if 0xC2 <= b0 <= 0xDF then
      if |s| >= 2 && IsContinuation(s[1]) then 2 else 0
    else if b0 == 0xE0 then
      if |s| >= 3 && 0xA0 <= s[1] <= 0xBF && IsContinuation(s[2]) then 3 else 0
    else if (0xE1 <= b0 <= 0xEC) || (0xEE <= b0 <= 0xEF) then
      if |s| >= 3 && IsContinuation(s[1]) && IsContinuation(s[2]) then 3 else 0
    else if b0 == 0xED then
      if |s| >= 3 && 0x80 <= s[1] <= 0x9F && IsContinuation(s[2]) then 3 else 0
    else if b0 == 0xF0 then
      if |s| >= 4 && 0x90 <= s[1] <= 0xBF && IsContinuation(s[2]) && IsContinuation(s[3]) then 4 else 0
    else if 0xF1 <= b0 <= 0xF3 then
      if |s| >= 4 && IsContinuation(s[1]) && IsContinuation(s[2]) && IsContinuation(s[3]) then 4 else 0
    else if b0 == 0xF4 then
      if |s| >= 4 && 0x80 <= s[1] <= 0x8F && IsContinuation(s[2]) && IsContinuation(s[3]) then 4 else 0
    else 0
  }

  /** `s` is a well-formed UTF-8 byte sequence: `String::from_utf8` accepts it. */
  predicate ValidUtf8(s: seq<byte>)
    decreases |s|
  {
    |s| == 0 || (Utf8SequenceLength(s) > 0 && ValidUtf8(s[Utf8SequenceLength(s)..]))
  }

  /** `String::from_utf8(bytes).unwrap_or("")`, with a string represented by its
      UTF-8 bytes: the bytes themselves when well-formed, else the empty string. */
  function Utf8OrEmpty(bytes: seq<byte>): (r: seq<byte>)
    ensures r == bytes || r == []
    ensures ValidUtf8(bytes) ==> r == bytes
  {
    if ValidUtf8(bytes) then bytes else []
  }

  /** The decoded text is always well-formed, and the input is kept exactly
      when it is well-formed. */
  lemma Utf8OrEmptyIsValid(bytes: seq<byte>)
    ensures ValidUtf8(Utf8OrEmpty(bytes))
    ensures Utf8OrEmpty(bytes) == bytes <==> ValidUtf8(bytes)
  {
  }

  /** Every ASCII byte sequence is well-formed UTF-8. */
  lemma {:induction false} AsciiIsUtf8(s: seq<byte>)
    requires forall i :: 0 <= i < |s| ==> s[i] < 0x80
    ensures ValidUtf8(s)
  {
    if |s| > 0 {
      AsciiIsUtf8(s[1..]);
    }
  }

  /** Rust `to_lowercase` on ASCII text. */
  function ToLowerAscii(s: string): (r: string)
    ensures |r| == |s|
    ensures forall i :: 0 <= i < |s| ==> ('A' <= s[i] <= 'Z' ==> r[i] as int == s[i] as int + 32)
    ensures forall i :: 0 <= i < |s| ==> (!('A' <= s[i] <= 'Z') ==> r[i] == s[i])
  {
    if |s| == 0 then []
    else
      var c := s[0];
      [if 'A' <= c <= 'Z' then (c as int + 32) as char else c] + ToLowerAscii(s[1..])
  }
}
