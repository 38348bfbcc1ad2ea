/**
 What the parser makes of any text at all: the text is cut at its delimiters (section 3 of RFC 3986), and every
 part is read by itself. The printer puts the parts together.
 */
module UriGrammar {
  import opened Octets
  import opened Wrappers
  import opened UriEscape
  import opened UriCodec

  datatype Place = Place(host: octets, port: Option<octets>)

  /** A URI in parts, none of them decoded. */
  datatype Parts = Parts(
    scheme: Option<octets>,
    authority: Option<Place>,
    path: octets,
    query: Option<octets>,
    fragment: Option<octets>)

  /** A part with its delimiter, or nothing. */
  function Marked(mark: octets, part: Option<octets>): octets {
    match part
    case None => []
    case Some(s) => mark + s
  }

  function PlaceText(a: Place): octets {
    a.host + Marked(":", a.port)
  }

  /** Path, query and fragment. */
  function RestText(p: Parts): octets {
    p.path + (Marked("?", p.query) + Marked("#", p.fragment))
  }

  function TailText(p: Parts): octets {
    match p.authority
    case None => RestText(p)
    case Some(a) => "//" + (PlaceText(a) + RestText(p))
  }

  function Text(p: Parts): octets {
    match p.scheme
    case None => TailText(p)
    case Some(s) => s + (":" + TailText(p))
  }

  /** No part runs into the next: each is free of the delimiters that end it. */
  predicate WellFormed(p: Parts) {
    && (match p.scheme case Some(s) => NoneOf(s, ":") case None => NoneOf(Text(p), ":"))
    && AuthorityFits(p) && RestFits(p)
  }

  predicate AuthorityFits(p: Parts) {
    match p.authority
    case Some(a) =>
      && NoneOf(a.host, ":/?#") && (a.port.Some? ==> NoneOf(a.port.value, "/?#"))
      && (p.path == [] || p.path[0] == '/')
    case None => !("//" <= RestText(p))
  }

  predicate RestFits(p: Parts) {
    NoneOf(p.path, "?#") && (p.query.Some? ==> NoneOf(p.query.value, "#"))
  }

  /** The parts, each read by itself; the first that cannot be read is what the parser complains about. */
  function Read(p: Parts): Result<Uri> {
    match PortOf(p)
    case Err(e) => Err(e)
    case Ok(port) =>
      var scheme := if p.scheme.Some? then p.scheme.value else [];
      var host := if p.authority.Some? then p.authority.value.host else [];
      ReadRest(Uri(scheme, host, port, [], [], []), p)
  }

  function PortOf(p: Parts): Result<port16> {
    match p.authority
    case None => Ok(0)
    case Some(a) => match a.port
      case None => Ok(0)
      case Some(text) => ParsePort(text)
  }

  function ReadRest(u: Uri, p: Parts): Result<Uri> {
    match Unescape(p.path, Path)
    case Err(e) => Err(e)
    case Ok(path) =>
      match (if p.query.Some? then ParseParams(p.query.value) else Ok([]))
      case Err(e) => Err(e)
      case Ok(query) =>
        match (if p.fragment.Some? then Unescape(p.fragment.value, Other) else Ok([]))
        case Err(e) => Err(e)
        case Ok(fragment) => Ok(u.(path := path, query := query, fragment := fragment))
  }

  // ----- reading -----

  lemma FragmentRead(u: Uri, fragment: Option<octets>)
    requires u.fragment == []
    ensures ParseFragment(u, Marked("#", fragment)) ==
            match (if fragment.Some? then Unescape(fragment.value, Other) else Ok([]))
            case Err(e) => Err(e)
            case Ok(f) => Ok(u.(fragment := f))
  {
    hide Unescape;
    if fragment.Some? {
      var mark: octets := "#";
      assert Tail(mark + fragment.value, 1) == fragment.value;
    } else {
      assert u.(fragment := []) == u;
    }
  }

  lemma RestRead(u: Uri, p: Parts)
    requires u.path == [] && u.query == [] && u.fragment == []
    requires RestFits(p)
    ensures ParseInto(u, RestText(p)) == ReadRest(u, p)
  {
    hide Unescape, ParseParams, ParseFragment, FindFirstOf;
    var fragment := Marked("#", p.fragment);
    var tail := Marked("?", p.query) + fragment;
    FindPast(p.path, tail, "?#");
    if Unescape(p.path, Path).Ok? {
      var v := u.(path := Unescape(p.path, Path).value);
      if p.query.Some? {
        var mark, q: octets := "?", p.query.value;
        assert Tail(mark + q + fragment, 1) == q + fragment;
        FindPast(q, fragment, "#");
        if ParseParams(q).Ok? {
          FragmentRead(v.(query := ParseParams(q).value), p.fragment);
        }
      } else {
        assert tail == fragment;
        FragmentRead(v, p.fragment);
        assert v.(query := []) == v;
      }
    }
  }

  lemma PlaceRead(u: Uri, a: Place, rest: octets)
    requires u.host == [] && u.port == 0 && NoneOf(a.host, ":/?#")
    ensures ParseAuthority(u, PlaceText(a), rest) ==
            match (if a.port.Some? then ParsePort(a.port.value) else Ok(0))
            case Err(e) => Err(e)
            case Ok(port) => ParseInto(u.(host := a.host, port := port), rest)
  {
    hide ParseInto, ParsePort, FindFirstOf, ParseAuthority;
    AuthorityCases(u, PlaceText(a), rest);
    FindPast(a.host, Marked(":", a.port), ":");
    if a.port.Some? {
      var mark: octets := ":";
      assert PlaceText(a)[|a.host| + 1..] == a.port.value;
    } else {
      assert PlaceText(a) == a.host && u.(host := a.host, port := 0) == u.(host := a.host);
    }
  }

  lemma AfterSchemeRead(u: Uri, p: Parts)
    requires u == EMPTY_URI.(scheme := u.scheme) && WellFormed(p)
    ensures ParseAfterScheme(u, TailText(p)) ==
            match PortOf(p)
            case Err(e) => Err(e)
            case Ok(port) =>
              ReadRest(u.(host := if p.authority.Some? then p.authority.value.host else [], port := port), p)
  {
    hide ParseAfterScheme, ParseAuthority, ParseInto, ParsePort, ReadRest, Text, FindFirstOf;
    if p.authority.Some? {
      var a := p.authority.value;
      PlaceNoneOf(a);
      RestStart(p);
      AuthoritySplit(u, PlaceText(a), RestText(p));
      PlaceRead(u, a, RestText(p));
      if PortOf(p).Ok? {
        RestRead(u.(host := a.host, port := PortOf(p).value), p);
      }
    } else {
      AfterSchemeCases(u, RestText(p));
      RestRead(u, p);
      assert u.(host := [], port := 0) == u;
    }
  }

  lemma PlaceNoneOf(a: Place)
    requires NoneOf(a.host, ":/?#") && (a.port.Some? ==> NoneOf(a.port.value, "/?#"))
    ensures NoneOf(PlaceText(a), "/?#")
  {
    var mark: octets := ":";
    assert NoneOf(mark, "/?#");
    if a.port.Some? {
      NoneOfConcat(mark, a.port.value, "/?#");
    }
    NoneOfConcat(a.host, Marked(":", a.port), "/?#");
  }

  lemma RestStart(p: Parts)
    requires p.path == [] || p.path[0] == '/'
    ensures RestText(p) != [] ==> RestText(p)[0] in "/?#"
  {
    var slash, question, hash: octets := "/", "?", "#";
    assert slash[0] in "/?#" && question[0] in "/?#" && hash[0] in "/?#";
  }

  /** Every text in parts is parsed part by part. */
  lemma ParseGrammar(p: Parts)
    requires WellFormed(p)
    ensures Parse(Text(p)) == Read(p)
  {
    hide ParseAfterScheme, ReadRest, PortOf, TailText, FindFirstOf, Parse, WellFormed;
    var scheme := if p.scheme.Some? then p.scheme.value else [];
    ParseCases(Text(p));
    SchemeClean(p);
    AfterSchemeRead(EMPTY_URI.(scheme := scheme), p);
    if p.scheme.Some? {
      var colon: octets := ":";
      FindPast(scheme, colon + TailText(p), ":");
      assert Tail(Text(p), |scheme| + 1) == TailText(p);
    } else {
      FindIs(Text(p), ":", |Text(p)|);
    }
  }

  lemma SchemeClean(p: Parts)
    requires WellFormed(p)
    ensures p.scheme.Some? ==> NoneOf(p.scheme.value, ":")
    ensures p.scheme.None? ==> NoneOf(Text(p), ":") && EMPTY_URI.(scheme := []) == EMPTY_URI
  {
  }

  // ----- cutting -----

  /** Every text is in parts. */
  lemma CutText(s: octets) returns (p: Parts)
    ensures WellFormed(p) && Text(p) == s
  {
    hide FindFirstOf, RestText, AuthorityFits, RestFits;
    var k := FindFirstOf(s, ":");
    if k < |s| {
      var q := CutAfterScheme(s[k + 1..]);
      p := q.(scheme := Some(s[..k]));
      SameTail(q, p);
      CutAt(s, k);
      var colon: octets := ":";
      assert [s[k]] == colon;
    } else {
      p := CutAfterScheme(s);
    }
  }

  lemma SameTail(p: Parts, q: Parts)
    requires q == p.(scheme := q.scheme)
    ensures RestText(p) == RestText(q) && TailText(p) == TailText(q)
    ensures AuthorityFits(p) == AuthorityFits(q) && RestFits(p) == RestFits(q)
  {
  }

  lemma CutAt(s: octets, k: nat)
    requires k < |s|
    ensures s == s[..k] + ([s[k]] + s[k + 1..]) == s[..k] + s[k..]
    ensures s[k..] == [s[k]] + s[k + 1..]
  {
  }

  lemma CutAfterScheme(s: octets) returns (p: Parts)
    ensures p.scheme == None && TailText(p) == s && AuthorityFits(p) && RestFits(p)
  {
    hide FindFirstOf, RestText, RestFits;
    var slashes: octets := "//";
    if slashes <= s {
      var t := s[2..];
      var k := FindFirstOf(t, "/?#");
      var q := CutRest(t[k..]);
      p := q.(authority := Some(CutPlace(t[..k])));
      SamePlace(q, p);
      PathAfterCut(t, k, p);
      assert t == t[..k] + t[k..] && s == slashes + t;
    } else {
      p := CutRest(s);
    }
  }

  lemma SamePlace(p: Parts, q: Parts)
    requires q == p.(authority := q.authority)
    ensures RestText(p) == RestText(q) && RestFits(p) == RestFits(q)
  {
  }

  lemma PathAfterCut(t: octets, k: nat, p: Parts)
    requires k <= |t| && RestText(p) == t[k..] && (k < |t| ==> t[k] in "/?#") && RestFits(p)
    ensures p.path == [] || p.path[0] == '/'
  {
    if p.path != [] {
      assert p.path[0] == t[k];
    }
  }

  function CutPlace(s: octets): (a: Place)
    ensures PlaceText(a) == s && NoneOf(a.host, ":")
    ensures NoneOf(s, "/?#") ==> NoneOf(a.host, ":/?#") && (a.port.Some? ==> NoneOf(a.port.value, "/?#"))
  {
    var k := FindFirstOf(s, ":");
    var colon: octets := ":";
    if k < |s| then
      assert s == s[..k] + (colon + s[k + 1..]);
      Place(s[..k], Some(s[k + 1..]))
    else Place(s, None)
  }

  lemma CutRest(s: octets) returns (p: Parts)
    ensures p.scheme == None && p.authority == None && RestText(p) == s && RestFits(p)
  {
    hide FindFirstOf;
    var k := FindFirstOf(s, "?#");
    var question, hash: octets := "?", "#";
    assert s[..|s|] == s;
    if k == |s| {
      p := Parts(None, None, s, None, None);
    } else {
      CutAt(s, k);
      if s[k] == '#' {
        p := Parts(None, None, s[..k], None, Some(s[k + 1..]));
        assert Marked(question, p.query) + Marked(hash, p.fragment) == [s[k]] + s[k + 1..];
      } else {
        var q, fragment := CutFragment(s[k + 1..]);
        p := Parts(None, None, s[..k], Some(q), fragment);
        assert Marked(question, p.query) + Marked(hash, fragment) == [s[k]] + s[k + 1..];
      }
    }
  }

  lemma CutFragment(t: octets) returns (q: octets, fragment: Option<octets>)
    ensures NoneOf(q, "#") && t == q + Marked("#", fragment)
  {
    hide FindFirstOf;
    var n := FindFirstOf(t, "#");
    if n < |t| {
      CutAt(t, n);
      q, fragment := t[..n], Some(t[n + 1..]);
    } else {
      q, fragment := t, None;
    }
  }

  // ----- parameters -----

  /** A parameter of a query; a name that an ampersand ends takes what follows for its value, like any other. */
  datatype RawParam = RawParam(name: octets, mark: octets, value: octets)

  predicate ParamFits(p: RawParam) {
    NoneOf(p.name, "=&") && NoneOf(p.value, "&#") && (p.mark == "=" || p.mark == "&" || (p.mark == "" && p.value == ""))
  }

  /** Only the last parameter may be a name alone. */
  predicate ParamsFit(q: seq<RawParam>) {
    forall i :: 0 <= i < |q| ==> ParamFits(q[i]) && (i < |q| - 1 ==> q[i].mark != "")
  }

  function Joined(q: seq<RawParam>): octets {
    if q == [] then []
    else q[0].name + (q[0].mark + (q[0].value + if |q| == 1 then [] else "&" + Joined(q[1..])))
  }

  /** A parameter without a name is dropped as it stands, any other is unescaped. */
  function ReadParam(p: RawParam): Result<seq<(octets, octets)>> {
    if p.name == [] then Ok([])
    else match Unescape(p.name, Query)
      case Err(e) => Err(e)
      case Ok(name) => match Unescape(p.value, Query)
        case Err(e) => Err(e)
        case Ok(value) => Ok([(name, value)])
  }

  function ReadParams(q: seq<RawParam>): Result<seq<(octets, octets)>> {
    if q == [] then Ok([])
    else match ReadParam(q[0])
      case Err(e) => Err(e)
      case Ok(entry) => match ReadParams(q[1..])
        case Err(e) => Err(e)
        case Ok(more) => Ok(entry + more)
  }

  lemma ParamRead(p: RawParam, more: octets)
    requires ParamFits(p) && (more != [] ==> more[0] == '&' && p.mark != "")
    ensures ParseParam(p.name + (p.mark + (p.value + more))) ==
            match ReadParam(p)
            case Err(e) => Err(e)
            case Ok(entry) => Ok(Param(entry, Tail(more, 1)))
  {
    hide FindFirstOf, ParamEntry, ReadParam, ParseParam, Tail;
    EntryIs(p);
    if p.mark == "" {
      assert p.name + (p.mark + (p.value + more)) == p.name;
      NameAlone(p.name);
      NoTail();
    } else {
      var t := p.value + more;
      FindPast(p.name, p.mark + t, "=&");
      FindPast(p.value, more, "&#");
      AfterMark(p.name, p.mark, t);
      AfterValue(p.value, more);
      ParamAt(p.name + (p.mark + t), |p.name|, t, |p.value|);
    }
  }

  lemma NameAlone(name: octets)
    requires NoneOf(name, "=&")
    ensures ParseParam(name) ==
            match ParamEntry(name, [])
            case Err(e) => Err(e)
            case Ok(entry) => Ok(Param(entry, []))
  {
    hide FindFirstOf, ParamEntry, Tail;
    FindIs(name, "=&", |name|);
    assert name[..|name|] == name;
  }

  lemma NoTail()
    ensures Tail([], 1) == []
  {
  }

  lemma AfterMark(a: octets, mark: octets, b: octets)
    requires |mark| == 1
    ensures Tail(a + (mark + b), |a| + 1) == b
  {
  }

  lemma AfterValue(value: octets, more: octets)
    ensures Tail(value + more, |value| + 1) == Tail(more, 1)
  {
  }

  lemma ParamAt(s: octets, k: nat, t: octets, n: nat)
    requires k < |s| && FindFirstOf(s, "=&") == k && t == Tail(s, k + 1) && n <= |t| && FindFirstOf(t, "&#") == n
    ensures ParseParam(s) ==
            match ParamEntry(s[..k], t[..n])
            case Err(e) => Err(e)
            case Ok(entry) => Ok(Param(entry, Tail(t, n + 1)))
  {
    hide FindFirstOf, ParamEntry, Tail;
  }

  lemma EntryIs(p: RawParam)
    ensures ParamEntry(p.name, p.value) == ReadParam(p)
  {
    hide Unescape;
  }

  /** The parameters of a query are read one by one, in order. */
  lemma {:induction false} ParamsGrammar(q: seq<RawParam>)
    requires ParamsFit(q)
    ensures ParseParams(Joined(q)) == ReadParams(q)
    decreases |q|
  {
    hide ParseParam, ParamFits;
    if q != [] {
      var mark: octets := "&";
      var more := if |q| == 1 then [] else mark + Joined(q[1..]);
      ParamRead(q[0], more);
      ParamsGrammar(q[1..]);
      assert Tail(more, 1) == Joined(q[1..]);
      if Joined(q) == [] {
        NothingRead(q);
      }
    }
  }

  lemma NothingRead(q: seq<RawParam>)
    requires q != [] && Joined(q) == []
    ensures |q| == 1 && q[0].name == []
  {
  }

  /** Every query is made of parameters. */
  lemma CutParams(s: octets) returns (q: seq<RawParam>)
    requires NoneOf(s, "#")
    ensures q != [] && ParamsFit(q) && Joined(q) == s
    decreases |s|
  {
    hide ParamFits;
    var p, more := CutParam(s);
    if more == [] {
      q := [p];
    } else {
      var mark: octets := "&";
      var rest := CutParams(more[1..]);
      q := [p] + rest;
      FitsBefore(p, rest);
      assert q[1..] == rest && more == mark + more[1..];
    }
  }

  lemma FitsBefore(p: RawParam, rest: seq<RawParam>)
    requires ParamFits(p) && p.mark != "" && rest != [] && ParamsFit(rest)
    ensures ParamsFit([p] + rest)
  {
    hide ParamFits;
    var q := [p] + rest;
    assert forall i :: 0 < i < |q| ==> q[i] == rest[i - 1];
  }

  lemma CutParam(s: octets) returns (p: RawParam, more: octets)
    requires NoneOf(s, "#")
    ensures ParamFits(p) && s == p.name + (p.mark + (p.value + more)) && NoneOf(more, "#")
    ensures more != [] ==> more[0] == '&' && p.mark != "" && |more| <= |s|
  {
    hide FindFirstOf;
    var k := FindFirstOf(s, "=&");
    if k == |s| {
      p, more := RawParam(s, "", ""), [];
    } else {
      var t := s[k + 1..];
      var n := FindFirstOf(t, "&#");
      OneMark(s, k);
      CutAt(s, k);
      p, more := RawParam(s[..k], [s[k]], t[..n]), t[n..];
      assert t == t[..n] + t[n..];
    }
  }

  lemma OneMark(s: octets, k: nat)
    requires k < |s| && s[k] in "=&"
    ensures [s[k]] == "=" || [s[k]] == "&"
  {
    var eq, mark: octets := "=", "&";
  }

  // ----- the port -----

  const SPACES: octets := " \t\n\U{B}\U{C}\r"

  /**
   A port is a decimal number after spaces and a sign; what follows its digits is ignored, a value outside
   32 bits is refused and any other is cut to 16 bits.
   */
  lemma {:induction false} PortRead(spaces: octets, sign: octets, digits: octets, more: octets)
    requires (forall i :: 0 <= i < |spaces| ==> spaces[i] in SPACES) && sign in ["", "+", "-"]
    requires digits != [] && (forall i :: 0 <= i < |digits| ==> IsDigit(digits[i]))
    requires more != [] ==> !IsDigit(more[0])
    ensures var v: int := DigitsValue(digits);
            ParsePort(spaces + (sign + (digits + more))) ==
            if sign == "-" then if v > 0x8000_0000 then Err(InvalidPort) else Ok(-v % 0x1_0000)
            else if v > 0x7fff_ffff then Err(InvalidPort) else Ok(v % 0x1_0000)
    decreases |spaces|
  {
    hide DigitsValue, DigitCount;
    if spaces == [] {
      assert spaces + (sign + (digits + more)) == sign + (digits + more);
      DigitsCounted(digits, more);
      SignedPort(sign, digits, more);
    } else {
      SpaceIs(spaces[0]);
      assert (spaces + (sign + (digits + more)))[1..] == spaces[1..] + (sign + (digits + more));
      PortRead(spaces[1..], sign, digits, more);
    }
  }

  lemma SignedPort(sign: octets, digits: octets, more: octets)
    requires sign in ["", "+", "-"] && digits != [] && forall i :: 0 <= i < |digits| ==> IsDigit(digits[i])
    requires DigitCount(digits + more) == |digits| && (digits + more)[..|digits|] == digits
    ensures var v: int := DigitsValue(digits);
            ParsePort(sign + (digits + more)) ==
            if sign == "-" then if v > 0x8000_0000 then Err(InvalidPort) else Ok(-v % 0x1_0000)
            else if v > 0x7fff_ffff then Err(InvalidPort) else Ok(v % 0x1_0000)
  {
    hide DigitsValue, DigitCount, ParsePort;
    var body := digits + more;
    assert IsDigit(digits[0]);
    if sign == "" {
      assert sign + body == body;
      UnsignedPort(body);
    } else {
      assert (sign + body)[1..] == body;
      MarkedPort(sign + body);
    }
  }

  lemma UnsignedPort(body: octets)
    requires body != [] && IsDigit(body[0]) && DigitCount(body) > 0
    ensures var v := DigitsValue(body[..DigitCount(body)]);
            ParsePort(body) == if v > 0x7fff_ffff then Err(InvalidPort) else Ok(v % 0x1_0000)
  {
    hide DigitsValue, DigitCount;
  }

  lemma MarkedPort(s: octets)
    requires s != [] && (s[0] == '+' || s[0] == '-') && DigitCount(s[1..]) > 0
    ensures var v: int := DigitsValue(s[1..][..DigitCount(s[1..])]);
            ParsePort(s) ==
            if s[0] == '-' then if v > 0x8000_0000 then Err(InvalidPort) else Ok(-v % 0x1_0000)
            else if v > 0x7fff_ffff then Err(InvalidPort) else Ok(v % 0x1_0000)
  {
    hide DigitsValue, DigitCount;
  }

  lemma {:induction false} DigitsCounted(digits: octets, more: octets)
    requires (forall i :: 0 <= i < |digits| ==> IsDigit(digits[i])) && (more != [] ==> !IsDigit(more[0]))
    ensures DigitCount(digits + more) == |digits| && (digits + more)[..|digits|] == digits
    decreases |digits|
  {
    if digits == [] {
      assert digits + more == more;
    } else {
      assert (digits + more)[1..] == digits[1..] + more;
      DigitsCounted(digits[1..], more);
    }
  }

  lemma SpaceIs(ch: octet)
    ensures IsSpace(ch) <==> ch in SPACES
  {
    assert SPACES[0] == ' ' && SPACES[1] == '\t' && SPACES[2] == '\n';
    assert SPACES[3] == '\U{B}' && SPACES[4] == '\U{C}' && SPACES[5] == '\r';
  }

  /** Without a digit there is no port. */
  lemma {:induction false} PortRefused(spaces: octets, sign: octets, more: octets)
    requires (forall i :: 0 <= i < |spaces| ==> spaces[i] in SPACES) && sign in ["", "+", "-"]
    requires more != [] ==> !IsDigit(more[0])
    requires sign == "" && more != [] ==> more[0] !in SPACES && more[0] != '+' && more[0] != '-'
    ensures ParsePort(spaces + (sign + more)) == Err(InvalidPort)
    decreases |spaces|
  {
    if spaces == [] {
      var s := sign + more;
      assert spaces + s == s;
      if sign == "" {
        assert s == more;
        if more != [] {
          SpaceIs(more[0]);
        }
      } else {
        assert s[1..] == more;
      }
    } else {
      SpaceIs(spaces[0]);
      assert (spaces + (sign + more))[1..] == spaces[1..] + (sign + more);
      PortRefused(spaces[1..], sign, more);
    }
  }

  // ----- printing -----

  /** What is printed: no part that is empty but the path, for which there is a slash, and no port without a host. */
  function PartsOf(u: Uri): Parts {
    Parts(
      if u.scheme == [] then None else Some(u.scheme),
      if u.host == [] then None else Some(Place(u.host, if u.port == 0 then None else Some(Decimal(u.port)))),
      if u.path == [] then "/" else Escape(u.path, Path),
      if u.query == [] then None else Some(ParamsText(u.query)),
      if u.fragment == [] then None else Some(Escape(u.fragment, Other)))
  }

  lemma Printed(u: Uri)
    ensures ToText(u) == Text(PartsOf(u))
  {
    hide Escape, ParamsText, Decimal;
    AfterSchemeIs(u);
    RestPrinted(u);
    if u.host != [] {
      AfterSchemeText(u);
    } else {
      assert [] + RelativeText(u) == RelativeText(u);
    }
  }

  /** The parameters as printed. */
  function EscapedParams(q: seq<(octets, octets)>): (raw: seq<RawParam>)
    ensures |raw| == |q|
    ensures forall i :: 0 <= i < |q| ==> raw[i] == RawParam(Escape(q[i].0, Query), "=", Escape(q[i].1, Query))
  {
    if q == [] then [] else [RawParam(Escape(q[0].0, Query), "=", Escape(q[0].1, Query))] + EscapedParams(q[1..])
  }

  /** The query is printed parameter by parameter. */
  lemma {:induction false} ParamsPrinted(q: seq<(octets, octets)>)
    requires q != []
    ensures ParamsText(q) == Joined(EscapedParams(q))
    decreases |q|
  {
    hide Escape;
    var raw := EscapedParams(q);
    var eq, mark: octets := "=", "&";
    if |q| == 1 {
      Regroup(raw[0].name, eq, raw[0].value);
      assert raw[0].value + [] == raw[0].value;
    } else {
      ParamsPrinted(q[1..]);
      assert raw[1..] == EscapedParams(q[1..]);
      var more := mark + Joined(raw[1..]);
      Regroup(raw[0].name + eq + raw[0].value, mark, Joined(raw[1..]));
      Regroup(raw[0].name + eq, raw[0].value, more);
      Regroup(raw[0].name, eq, raw[0].value + more);
    }
  }

  /** A number is printed without leading zeros. */
  lemma {:induction false} DecimalShort(n: nat)
    ensures Decimal(n)[0] == '0' <==> n == 0
    ensures n < 10 ==> |Decimal(n)| == 1
  {
    if n < 10 {
      assert Decimal(n) == [('0' as int + n) as char];
    } else {
      DecimalShort(n / 10);
      assert Decimal(n)[0] == Decimal(n / 10)[0];
    }
  }

  lemma RestPrinted(u: Uri)
    ensures RestText(PartsOf(u)) == RelativeText(u)
  {
    hide Escape, ParamsText, Decimal;
  }
}
