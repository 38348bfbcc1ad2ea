/** The byte tables of the parser, told by the bytes they hold. */
module LlhttpBytes {
  import opened Octets
  import opened LlhttpSpec

  /** The bytes of a header name: the token characters of section 3.2.6 of RFC 7230 and, in loose mode, the space. */
  predicate HeaderByte(b: octet) {
    ' ' <= b <= '~' && b !in DELIMITERS
  }

  const DELIMITERS: octets := "\"(),/:;<=>?@[\\]{}"

  /** The lookup table leaves out the control bytes, the delimiters and everything past the tilde, and nothing else. */
  lemma TokenBytes(b: octet)
    ensures IsToken(b) <==> HeaderByte(b)
  {
    if ' ' <= b <= '~' && !IsToken(b) {
      NoTokenDelimits(b);
    }
    if b in DELIMITERS {
      var i :| 0 <= i < |DELIMITERS| && DELIMITERS[i] == b;
      DelimiterNoToken(i);
    }
  }

  lemma DelimiterNoToken(i: nat)
    requires i < |DELIMITERS|
    ensures !IsToken(DELIMITERS[i])
  {
  }

  lemma NoTokenDelimits(b: octet)
    requires ' ' <= b <= '~' && !IsToken(b)
    ensures b in DELIMITERS
  {
    var i := if b == '"' then 0 else if b <= ')' then b as int - '(' as int + 1
             else if b == ',' then 3 else if b == '/' then 4
             else if b <= '@' then b as int - ':' as int + 5 else if b <= ']' then b as int - '[' as int + 12
             else if b == '{' then 15 else 16;
    assert DELIMITERS[i] == b;
  }

  /** Letter case: the 26 capital letters have their small letters, every other byte is left alone. */
  lemma LowerLetters(i: nat, b: octet)
    requires i < 26
    ensures ToLower(UPPER[i]) == LOWER[i]
    ensures b !in UPPER ==> ToLower(b) == b
  {
    if 'A' <= b <= 'Z' {
      assert UPPER[b as int - 'A' as int] == b;
    }
  }

  predicate IsHex(b: octet) {
    b in HEX || b in UPPER_HEX
  }

  /** Hex digits count in either case, and no other byte is one. */
  lemma HexDigits(i: nat, b: octet)
    requires i < 16
    ensures HexDigit(HEX[i]) == i == HexDigit(UPPER_HEX[i])
    ensures !IsHex(b) ==> HexDigit(b) == -1
  {
    if HexDigit(b) >= 0 {
      HexDigitIn(b);
    }
  }

  lemma HexDigitIn(b: octet)
    requires HexDigit(b) >= 0
    ensures IsHex(b)
  {
    assert if 'A' <= b <= 'F' then UPPER_HEX[HexDigit(b)] == b else HEX[HexDigit(b)] == b;
  }
}
