/** Percent-encoding in the three modes of the URI printer (sections 2.1 and 2.3 of RFC 3986). */
module UriEscape {
  import opened Octets

  datatype Mode = Other | Query | Path

  datatype ParseError = IncompleteEscape | InvalidEscape | InvalidSymbol | InvalidPort

  datatype Result<+T> = Ok(value: T) | Err(error: ParseError)

  predicate IsAllowedSymbol(ch: octet, mode: Mode) {
    '0' <= ch <= '9' || 'A' <= ch <= 'Z' || 'a' <= ch <= 'z'
    || ch == '-' || ch == '_' || ch == '.' || ch == '~'
    || (ch == '/' && mode == Path)
  }

  function HexChar(n: nat): octet
    requires n < 16
  {
    if n < 10 then ('0' as int + n) as char else ('a' as int + n - 10) as char
  }

  /** `nhope::fromHex` of one digit: either case, -1 for anything else. */
  function HexValue(ch: octet): (n: int)
    ensures -1 <= n < 16
  {
    if '0' <= ch <= '9' then ch as int - '0' as int
    else if 'a' <= ch <= 'f' then ch as int - 'a' as int + 10
    else if 'A' <= ch <= 'F' then ch as int - 'A' as int + 10
    else -1
  }

  function EscapeSymbol(ch: octet, mode: Mode): (out: octets)
    ensures |out| > 0
  {
    if IsAllowedSymbol(ch, mode) then [ch]
    else if ch == ' ' && mode == Query then ['+']
    else ['%', HexChar(ch as int / 16), HexChar(ch as int % 16)]
  }

  function Escape(s: octets, mode: Mode): octets {
    if s == [] then [] else Escape(s[..|s| - 1], mode) + EscapeSymbol(s[|s| - 1], mode)
  }

  function Prepend(ch: octet, r: Result<octets>): Result<octets> {
    match r
    case Ok(s) => Ok([ch] + s)
    case Err(e) => Err(e)
  }

  function Unescape(s: octets, mode: Mode): Result<octets>
    decreases |s|
  {
    if s == [] then Ok([])
    else if s[0] == '%' then
      if |s| < 3 then Err(IncompleteEscape)
      else
        var hi, lo := HexValue(s[1]), HexValue(s[2]);
        if hi < 0 || lo < 0 then Err(InvalidEscape)
        else Prepend((16 * hi + lo) as char, Unescape(s[3..], mode))
    else if s[0] == '+' && mode == Query then Prepend(' ', Unescape(s[1..], mode))
    else if IsAllowedSymbol(s[0], mode) then Prepend(s[0], Unescape(s[1..], mode))
    else Err(InvalidSymbol)
  }

  /** Appends the escaped text. */
  method UriEscapeTo(prefix: octets, text: octets, mode: Mode) returns (out: octets)
    ensures out == prefix + Escape(text, mode)
  {
    hide IsAllowedSymbol, HexChar, Escape;
    EscapeNone(mode);
    out := prefix;
    for i := 0 to |text|
      invariant out == prefix + Escape(text[..i], mode)
    {
      var ch := text[i];
      EscapeNext(prefix, text, i, mode);
      if IsAllowedSymbol(ch, mode) {
        out := out + [ch];
      } else if ch == ' ' && mode == Query {
        out := out + ['+'];
      } else {
        out := out + ['%', HexChar(ch as int / 16), HexChar(ch as int % 16)];
      }
    }
    assert text[..|text|] == text;
  }

  lemma EscapeNone(mode: Mode)
    ensures Escape([], mode) == []
  {
  }

  lemma EscapeNext(prefix: octets, text: octets, i: nat, mode: Mode)
    requires i < |text|
    ensures prefix + Escape(text[..i + 1], mode) == prefix + Escape(text[..i], mode) + EscapeSymbol(text[i], mode)
  {
    hide EscapeSymbol;
    assert text[..i + 1][..i] == text[..i];
  }

  function Append(prefix: octets, r: Result<octets>): Result<octets> {
    match r
    case Ok(s) => Ok(prefix + s)
    case Err(e) => Err(e)
  }

  /** Appends the unescaped text, or throws. */
  method UriUnescapeTo(prefix: octets, text: octets, mode: Mode) returns (out: Result<octets>)
    ensures out == Append(prefix, Unescape(text, mode))
  {
    var s: octets := prefix;
    hide IsAllowedSymbol, HexValue, Append;
    var i := 0;
    while i < |text|
      invariant 0 <= i <= |text|
      invariant Append(prefix, Unescape(text, mode)) == Append(s, Unescape(text[i..], mode))
    {
      ghost var rest := text[i..];
      AppendOk(s);
      if text[i] == '%' {
        if |text| - i < 3 {
          return Err(IncompleteEscape);
        }
        var hi, lo := HexValue(text[i + 1]), HexValue(text[i + 2]);
        if hi < 0 || lo < 0 {
          return Err(InvalidEscape);
        }
        AppendPrepend(s, (16 * hi + lo) as char, Unescape(text[i + 3..], mode));
        assert rest[3..] == text[i + 3..] && rest[1] == text[i + 1] && rest[2] == text[i + 2];
        s := s + [(16 * hi + lo) as char];
        i := i + 3;
      } else {
        var ch: octet;
        if text[i] == '+' && mode == Query {
          ch := ' ';
        } else if IsAllowedSymbol(text[i], mode) {
          ch := text[i];
        } else {
          return Err(InvalidSymbol);
        }
        AppendPrepend(s, ch, Unescape(text[i + 1..], mode));
        assert rest[1..] == text[i + 1..];
        s := s + [ch];
        i := i + 1;
      }
    }
    assert text[|text|..] == [] && s + [] == s;
    AppendOk(s);
    out := Ok(s);
  }

  lemma AppendOk(s: octets)
    ensures Append(s, Ok([])) == Ok(s)
    ensures forall e :: Append(s, Err(e)) == Err(e)
  {
    assert s + [] == s;
  }

  lemma AppendPrepend(s: octets, ch: octet, r: Result<octets>)
    ensures Append(s, Prepend(ch, r)) == Append(s + [ch], r)
  {
    if r.Ok? {
      assert s + ([ch] + r.value) == s + [ch] + r.value;
    }
  }

  // ----- escaping is undone by unescaping -----

  lemma {:induction false} EscapeConcat(a: octets, b: octets, mode: Mode)
    ensures Escape(a + b, mode) == Escape(a, mode) + Escape(b, mode)
    decreases |b|
  {
    hide EscapeSymbol;
    if b == [] {
      assert a + b == a;
    } else {
      var k := |b| - 1;
      assert (a + b)[..|a| + k] == a + b[..k];
      EscapeConcat(a, b[..k], mode);
    }
  }

  lemma {:induction false} EscapeHead(s: octets, mode: Mode)
    requires s != []
    ensures Escape(s, mode) == EscapeSymbol(s[0], mode) + Escape(s[1..], mode)
  {
    assert s == [s[0]] + s[1..];
    EscapeConcat([s[0]], s[1..], mode);
    assert Escape([s[0]], mode) == Escape([], mode) + EscapeSymbol(s[0], mode);
  }

  lemma UnescapeSymbol(ch: octet, rest: octets, mode: Mode)
    ensures Unescape(EscapeSymbol(ch, mode) + rest, mode) == Prepend(ch, Unescape(rest, mode))
  {
    var e := EscapeSymbol(ch, mode);
    assert (e + rest)[|e|..] == rest;
  }

  /** In every mode unescaping undoes escaping, for all byte strings. */
  lemma {:induction false} EscapeRoundTrip(s: octets, mode: Mode)
    ensures Unescape(Escape(s, mode), mode) == Ok(s)
    decreases |s|
  {
    if s != [] {
      EscapeHead(s, mode);
      UnescapeSymbol(s[0], Escape(s[1..], mode), mode);
      EscapeRoundTrip(s[1..], mode);
      assert [s[0]] + s[1..] == s;
    }
  }

  /** The characters escaped text is made of. */
  predicate Plain(ch: octet, mode: Mode) {
    IsAllowedSymbol(ch, mode) || ch == '%' || (ch == '+' && mode == Query)
  }

  /** Escaped text contains none of the delimiters of a URI. */
  lemma {:induction false} EscapedIsPlain(s: octets, mode: Mode)
    ensures forall i :: 0 <= i < |Escape(s, mode)| ==> Plain(Escape(s, mode)[i], mode)
    ensures |s| <= |Escape(s, mode)|
  {
    if s != [] {
      EscapedIsPlain(s[..|s| - 1], mode);
    }
  }

  // ----- the symbols, told by what they are -----

  /** The unreserved characters of section 2.3 of RFC 3986 and, in a path, the slash. */
  predicate Unreserved(ch: octet, mode: Mode) {
    ch in UPPER || ch in LOWER || ch in "0123456789" || ch in "-_.~" || (mode == Path && ch == '/')
  }

  lemma AllowedSymbols(ch: octet, mode: Mode)
    ensures IsAllowedSymbol(ch, mode) <==> Unreserved(ch, mode)
  {
    if IsAllowedSymbol(ch, mode) {
      AllowedUnreserved(ch, mode);
    } else {
      UnreservedAllowed(ch, mode);
    }
  }

  lemma AllowedUnreserved(ch: octet, mode: Mode)
    requires IsAllowedSymbol(ch, mode)
    ensures Unreserved(ch, mode)
  {
    var digits: octets := "0123456789";
    if 'A' <= ch <= 'Z' {
      assert UPPER[ch as int - 'A' as int] == ch;
    } else if 'a' <= ch <= 'z' {
      assert LOWER[ch as int - 'a' as int] == ch;
    } else if '0' <= ch <= '9' {
      assert digits[ch as int - '0' as int] == ch;
    } else if ch != '/' {
      MarksIn(ch);
    }
  }

  lemma MarksIn(ch: octet)
    ensures ch == '-' || ch == '_' || ch == '.' || ch == '~' <==> ch in "-_.~"
  {
    var marks: octets := "-_.~";
    assert marks[0] == '-' && marks[1] == '_' && marks[2] == '.' && marks[3] == '~';
  }

  lemma UnreservedAllowed(ch: octet, mode: Mode)
    ensures Unreserved(ch, mode) ==> IsAllowedSymbol(ch, mode)
  {
    MarksIn(ch);
    if ch in UPPER {
      var i :| 0 <= i < |UPPER| && UPPER[i] == ch;
      LetterAt(i);
    } else if ch in LOWER {
      var i :| 0 <= i < |LOWER| && LOWER[i] == ch;
      LetterAt(i);
    }
  }

  lemma LetterAt(i: nat)
    requires i < 26
    ensures UPPER[i] == ('A' as int + i) as char && LOWER[i] == ('a' as int + i) as char
  {
  }

  /** Text of unreserved characters is escaped to itself and unescaped to itself. */
  lemma {:induction false} PlainText(s: octets, mode: Mode)
    requires forall i :: 0 <= i < |s| ==> Unreserved(s[i], mode)
    ensures Escape(s, mode) == s && Unescape(s, mode) == Ok(s)
    decreases |s|
  {
    hide Unreserved, IsAllowedSymbol, Escape, Unescape;
    if s == [] {
      EscapeNone(mode);
      UnescapeNone(mode);
    } else {
      PlainText(s[1..], mode);
      EscapeHead(s, mode);
      PlainFirst(s, mode);
      assert [s[0]] + s[1..] == s;
    }
  }

  lemma UnescapeNone(mode: Mode)
    ensures Unescape([], mode) == Ok([])
  {
  }

  lemma PlainFirst(s: octets, mode: Mode)
    requires s != [] && Unreserved(s[0], mode)
    ensures EscapeSymbol(s[0], mode) == [s[0]] && Unescape(s, mode) == Prepend(s[0], Unescape(s[1..], mode))
  {
    hide Unreserved;
    AllowedSymbols(s[0], mode);
    hide IsAllowedSymbol;
    PlainNoMark(s[0], mode);
  }

  lemma PlainNoMark(ch: octet, mode: Mode)
    requires IsAllowedSymbol(ch, mode)
    ensures ch != '%' && ch != '+'
  {
  }

  /** Every other byte is escaped: a space in a query as a plus, the rest by their two hex digits. */
  lemma OtherEscaped(ch: octet, mode: Mode)
    requires !Unreserved(ch, mode)
    ensures EscapeSymbol(ch, mode) ==
            if ch == ' ' && mode == Query then ['+'] else ['%', HEX[ch as int / 16], HEX[ch as int % 16]]
  {
    hide Unreserved;
    AllowedSymbols(ch, mode);
    HexChars(ch as int / 16);
    HexChars(ch as int % 16);
  }

  lemma HexChars(n: nat)
    requires n < 16
    ensures HexChar(n) == HEX[n]
    ensures HexValue(HEX[n]) == HexValue(UPPER_HEX[n]) == n
  {
  }

  predicate IsHexOf(ch: octet, n: nat)
    requires n < 16
  {
    ch == HEX[n] || ch == UPPER_HEX[n]
  }

  lemma HexValueIn(ch: octet)
    requires HexValue(ch) >= 0
    ensures IsHexOf(ch, HexValue(ch))
  {
  }

  /** A percent sign and two hex digits, in either case, are one byte. */
  lemma PercentDecoded(s: octets, mode: Mode, hi: nat, lo: nat)
    requires |s| >= 3 && s[0] == '%' && hi < 16 && lo < 16 && IsHexOf(s[1], hi) && IsHexOf(s[2], lo)
    ensures Unescape(s, mode) == Prepend((16 * hi + lo) as char, Unescape(s[3..], mode))
  {
    hide HexValue;
    HexChars(hi);
    HexChars(lo);
  }

  /**
   Unescaping, byte by byte: a percent sign without two hex digits is refused, a plus in a query is a space, an
   unreserved character stands for itself, and every other byte is refused.
   */
  lemma UnescapeBytes(s: octets, mode: Mode)
    requires s != []
    ensures s[0] == '%' && |s| < 3 ==> Unescape(s, mode) == Err(IncompleteEscape)
    ensures s[0] == '%' && |s| >= 3 && Unescape(s, mode) != Err(InvalidEscape) ==>
              (exists hi | 0 <= hi < 16 :: IsHexOf(s[1], hi)) && exists lo | 0 <= lo < 16 :: IsHexOf(s[2], lo)
    ensures s[0] != '%' ==>
              Unescape(s, mode) ==
              if s[0] == '+' && mode == Query then Prepend(' ', Unescape(s[1..], mode))
              else if Unreserved(s[0], mode) then Prepend(s[0], Unescape(s[1..], mode))
              else Err(InvalidSymbol)
  {
    hide IsAllowedSymbol, Unreserved, HexValue, IsHexOf;
    AllowedSymbols(s[0], mode);
    if |s| >= 3 && HexValue(s[1]) >= 0 && HexValue(s[2]) >= 0 {
      HexValueIn(s[1]);
      HexValueIn(s[2]);
    }
  }
}
