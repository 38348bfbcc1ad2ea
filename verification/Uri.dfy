/** The URI printer and the hand-written parser, and exactly which URIs survive the trip. */
module UriCodec {
  import opened Octets
  import opened UriEscape

  type port16 = n: nat | n < 0x1_0000

  datatype Uri = Uri(
    scheme: octets,
    host: octets,
    port: port16,
    path: octets,
    query: seq<(octets, octets)>,
    fragment: octets)

  const EMPTY_URI: Uri := Uri([], [], 0, [], [], [])

  // ----- scanning -----

  /** `find_first_of`; the length of the text stands for npos. */
  function FindFirstOf(s: octets, delimiters: octets): (k: nat)
    ensures k <= |s|
    ensures forall i :: 0 <= i < k ==> s[i] !in delimiters
    ensures k < |s| ==> s[k] in delimiters
  {
    if s == [] || s[0] in delimiters then 0 else 1 + FindFirstOf(s[1..], delimiters)
  }

  function Tail(s: octets, offset: nat): octets {
    if offset < |s| then s[offset..] else []
  }

  predicate StartsWith(s: octets, prefix: octets) {
    prefix <= s
  }

  // ----- decimal numbers -----

  /** `std::to_string` */
  function Decimal(n: nat): (s: octets)
    ensures |s| > 0 && forall i :: 0 <= i < |s| ==> IsDigit(s[i])
  {
    var d: octets := [('0' as int + n % 10) as char];
    if n < 10 then d else Decimal(n / 10) + d
  }

  predicate IsDigit(ch: octet) {
    '0' <= ch <= '9'
  }

  function DigitValue(ch: octet): nat
    requires IsDigit(ch)
  {
    ch as int - '0' as int
  }

  function DigitsValue(s: octets): nat
    requires forall i :: 0 <= i < |s| ==> IsDigit(s[i])
  {
    if s == [] then 0 else DigitsValue(s[..|s| - 1]) * 10 + DigitValue(s[|s| - 1])
  }

  function DigitCount(s: octets): (k: nat)
    ensures k <= |s| && forall i :: 0 <= i < k ==> IsDigit(s[i])
    ensures k < |s| ==> !IsDigit(s[k])
  {
    if s == [] || !IsDigit(s[0]) then 0 else 1 + DigitCount(s[1..])
  }

  predicate IsSpace(ch: octet) {
    ch == ' ' || '\t' <= ch <= '\r'
  }

  const INT_MAX: nat := 0x7fff_ffff

  /**
   `std::stoi` assigned to a 16-bit port: spaces, a sign, then as many digits as there are. No digits
   or a value outside int throw; what follows the digits is ignored.
   */
  function ParsePort(s: octets): Result<port16>
    decreases |s|
  {
    if s != [] && IsSpace(s[0]) then ParsePort(s[1..])
    else
      var negative := s != [] && s[0] == '-';
      var body := if s != [] && (s[0] == '-' || s[0] == '+') then s[1..] else s;
      var k := DigitCount(body);
      if k == 0 then Err(InvalidPort)
      else
        var v: int := DigitsValue(body[..k]);
        if v > (if negative then INT_MAX + 1 else INT_MAX) then Err(InvalidPort)
        else
          Ok((if negative then -v else v) % 0x1_0000)
  }

  // ----- the printer -----

  function Authority(u: Uri): octets {
    if u.host == [] then []
    else "//" + u.host + (if u.port != 0 then ":" + Decimal(u.port) else [])
  }

  function PathText(u: Uri): octets {
    if u.path != [] then Escape(u.path, Path) else "/"
  }

  function ParamText(p: (octets, octets)): octets {
    Escape(p.0, Query) + "=" + Escape(p.1, Query)
  }

  function ParamsText(q: seq<(octets, octets)>): octets
    requires q != []
  {
    if |q| == 1 then ParamText(q[0]) else ParamText(q[0]) + "&" + ParamsText(q[1..])
  }

  function QueryText(q: seq<(octets, octets)>): octets {
    if q == [] then [] else "?" + ParamsText(q)
  }

  function FragmentText(f: octets): octets {
    if f == [] then [] else "#" + Escape(f, Other)
  }

  /** Path, query and fragment. */
  function RelativeText(u: Uri): octets {
    PathText(u) + (QueryText(u.query) + FragmentText(u.fragment))
  }

  function SchemeText(u: Uri): octets {
    if u.scheme != [] then u.scheme + ":" else []
  }

  function ToText(u: Uri): octets {
    SchemeText(u) + (Authority(u) + RelativeText(u))
  }

  // ----- the parser -----

  /** One query parameter and what follows it; a parameter without a name is dropped. */
  datatype Param = Param(entry: seq<(octets, octets)>, rest: octets)

  function ParamEntry(name: octets, value: octets): Result<seq<(octets, octets)>> {
    if name == [] then Ok([])
    else match Unescape(name, Query)
      case Err(e) => Err(e)
      case Ok(n) => match Unescape(value, Query)
        case Err(e) => Err(e)
        case Ok(v) => Ok([(n, v)])
  }

  function ParseParam(s: octets): (r: Result<Param>)
    ensures r.Ok? && s != [] ==> |r.value.rest| < |s|
  {
    var nameEnd := FindFirstOf(s, "=&");
    var name := s[..nameEnd];
    if nameEnd == |s| then
      match ParamEntry(name, [])
      case Err(e) => Err(e)
      case Ok(entry) => Ok(Param(entry, []))
    else
      var t := Tail(s, nameEnd + 1);
      var valueEnd := FindFirstOf(t, "&#");
      match ParamEntry(name, t[..valueEnd])
      case Err(e) => Err(e)
      case Ok(entry) => Ok(Param(entry, Tail(t, valueEnd + 1)))
  }

  function ParseParams(s: octets): Result<seq<(octets, octets)>>
    decreases |s|
  {
    if s == [] then Ok([])
    else match ParseParam(s)
      case Err(e) => Err(e)
      case Ok(p) => match ParseParams(p.rest)
        case Err(e) => Err(e)
        case Ok(q) => Ok(p.entry + q)
  }

  /** Path, query and fragment into `u`, whose own are empty. */
  function ParseInto(u: Uri, s: octets): Result<Uri> {
    var pathEnd := FindFirstOf(s, "?#");
    match Unescape(s[..pathEnd], Path)
    case Err(e) => Err(e)
    case Ok(path) =>
      var t := Tail(s, pathEnd);
      if t != [] && t[0] == '?' then
        var q := Tail(t, 1);
        var queryEnd := FindFirstOf(q, "#");
        match ParseParams(q[..queryEnd])
        case Err(e) => Err(e)
        case Ok(query) => ParseFragment(u.(path := path, query := query), Tail(q, queryEnd))
      else ParseFragment(u.(path := path), t)
  }

  function ParseFragment(u: Uri, s: octets): Result<Uri> {
    if s != [] && s[0] == '#' then
      match Unescape(Tail(s, 1), Other)
      case Err(e) => Err(e)
      case Ok(f) => Ok(u.(fragment := f))
    else Ok(u)
  }

  function ParseRelative(s: octets): Result<Uri> {
    ParseInto(EMPTY_URI, s)
  }

  /** The host, the port and then the rest. */
  function ParseAuthority(u: Uri, authority: octets, rest: octets): Result<Uri> {
    var portPos := FindFirstOf(authority, ":");
    if portPos < |authority| then
      match ParsePort(authority[portPos + 1..])
      case Err(e) => Err(e)
      case Ok(port) => ParseInto(u.(host := authority[..portPos], port := port), rest)
    else ParseInto(u.(host := authority), rest)
  }

  /** `[//authority]path...` after the scheme. */
  function ParseAfterScheme(u: Uri, s: octets): Result<Uri> {
    if !StartsWith(s, "//") then ParseInto(u, s)
    else
      var t := Tail(s, 2);
      var authEnd := FindFirstOf(t, "/?#");
      ParseAuthority(u, t[..authEnd], Tail(t, authEnd))
  }

  function Parse(s: octets): Result<Uri> {
    var schemeEnd := FindFirstOf(s, ":");
    if schemeEnd < |s| then ParseAfterScheme(EMPTY_URI.(scheme := s[..schemeEnd]), Tail(s, schemeEnd + 1))
    else ParseAfterScheme(EMPTY_URI, s)
  }

  // ----- reading back what was printed -----

  /** The position `find_first_of` reports is the only one of its kind. */
  lemma FindIs(s: octets, delimiters: octets, k: nat)
    requires k <= |s| && (forall i :: 0 <= i < k ==> s[i] !in delimiters) && (k < |s| ==> s[k] in delimiters)
    ensures FindFirstOf(s, delimiters) == k
  {
  }

  predicate NoneOf(s: octets, delimiters: octets) {
    forall i :: 0 <= i < |s| ==> s[i] !in delimiters
  }

  lemma FindPast(s: octets, t: octets, delimiters: octets)
    requires NoneOf(s, delimiters) && (t != [] ==> t[0] in delimiters)
    ensures FindFirstOf(s + t, delimiters) == |s|
    ensures (s + t)[..|s|] == s && Tail(s + t, |s|) == t
  {
    FindIs(s + t, delimiters, |s|);
  }

  lemma EscapedNoneOf(s: octets, mode: Mode, delimiters: octets)
    requires forall ch: octet :: Plain(ch, mode) ==> ch !in delimiters
    ensures NoneOf(Escape(s, mode), delimiters)
  {
    EscapedIsPlain(s, mode);
  }

  /** The parameters with a name. */
  function Named(q: seq<(octets, octets)>): seq<(octets, octets)> {
    if q == [] then [] else (if q[0].0 != [] then [q[0]] else []) + Named(q[1..])
  }

  lemma EntryOfEscaped(p: (octets, octets))
    ensures ParamEntry(Escape(p.0, Query), Escape(p.1, Query)) == Ok(if p.0 != [] then [p] else [])
  {
    EscapeRoundTrip(p.0, Query);
    EscapeRoundTrip(p.1, Query);
    EscapedIsPlain(p.0, Query);
  }

  /** The scan of one parameter finds its name, its value and what follows. */
  lemma ParamSplit(name: octets, value: octets, more: octets)
    requires NoneOf(name, "=&") && NoneOf(value, "&#") && (more != [] ==> more[0] == '&')
    requires ParamEntry(name, value).Ok?
    ensures ParseParam(name + ("=" + (value + more))) == Ok(Param(ParamEntry(name, value).value, Tail(more, 1)))
  {
    hide ParamEntry, FindFirstOf;
    var s, eq: octets := name + ("=" + (value + more)), "=";
    FindPast(name, eq + (value + more), "=&");
    assert Tail(s, |name| + 1) == value + more;
    FindPast(value, more, "&#");
    assert Tail(value + more, |value| + 1) == Tail(more, 1);
  }

  /** One printed parameter, alone or followed by the rest after an ampersand. */
  lemma ParamReadBack(p: (octets, octets), more: octets)
    requires more != [] ==> more[0] == '&'
    ensures ParseParam(ParamText(p) + more) == Ok(Param(if p.0 != [] then [p] else [], Tail(more, 1)))
  {
    hide ParseParam, Escape, ParamEntry, Tail;
    var name, value := Escape(p.0, Query), Escape(p.1, Query);
    EscapedNoneOf(p.0, Query, "=&");
    EscapedNoneOf(p.1, Query, "&#");
    EntryOfEscaped(p);
    ParamSplit(name, value, more);
    assert ParamText(p) + more == name + ("=" + (value + more));
  }

  lemma {:induction false} ParamsReadBack(q: seq<(octets, octets)>)
    requires q != []
    ensures ParseParams(ParamsText(q)) == Ok(Named(q))
    decreases |q|
  {
    hide ParseParam, ParamText;
    if |q| == 1 {
      ParamReadBack(q[0], []);
      assert ParamText(q[0]) + [] == ParamText(q[0]);
      ParamTextNotEmpty(q[0]);
      assert q[1..] == [];
    } else {
      var more := "&" + ParamsText(q[1..]);
      ParamReadBack(q[0], more);
      ParamTextNotEmpty(q[0]);
      assert ParamText(q[0]) + "&" + ParamsText(q[1..]) == ParamText(q[0]) + more;
      ParamsTextNotEmpty(q[1..]);
      assert Tail(more, 1) == ParamsText(q[1..]);
      ParamsReadBack(q[1..]);
    }
  }

  lemma ParamTextNotEmpty(p: (octets, octets))
    ensures ParamText(p) != []
  {
  }

  lemma ParamsTextNotEmpty(q: seq<(octets, octets)>)
    requires q != []
    ensures ParamsText(q) != []
  {
    ParamTextNotEmpty(q[0]);
  }

  lemma {:induction false} ParamsNoFragment(q: seq<(octets, octets)>)
    requires q != []
    ensures NoneOf(ParamsText(q), "#:")
    decreases |q|
  {
    hide ParamText;
    ParamNoFragment(q[0]);
    if |q| > 1 {
      ParamsNoFragment(q[1..]);
    }
  }

  lemma ParamNoFragment(p: (octets, octets))
    ensures NoneOf(ParamText(p), "#:")
  {
    hide Escape;
    EscapedNoneOf(p.0, Query, "#:");
    EscapedNoneOf(p.1, Query, "#:");
  }

  /** The path that is read back: an empty one is printed as a slash. */
  function PathRead(path: octets): octets {
    if path != [] then path else "/"
  }

  lemma PathReadBack(u: Uri)
    ensures Unescape(PathText(u), Path) == Ok(PathRead(u.path))
    ensures NoneOf(PathText(u), "?#:") && PathText(u) != []
  {
    hide Escape, Unescape;
    EscapeSlash();
    var path: octets := if u.path == [] then "/" else u.path;
    EscapeRoundTrip(path, Path);
    EscapedNoneOf(path, Path, "?#:");
    EscapedIsPlain(path, Path);
  }

  lemma EscapeSlash()
    ensures Escape("/", Path) == "/"
  {
    var slash: octets := "/";
    assert slash[..0] == [];
    assert Escape(slash, Path) == Escape([], Path) + EscapeSymbol('/', Path);
  }

  lemma FragmentReadBack(u: Uri, f: octets)
    requires u.fragment == []
    ensures ParseFragment(u, FragmentText(f)) == Ok(u.(fragment := f))
  {
    EscapeRoundTrip(f, Other);
    if f != [] {
      assert Tail(FragmentText(f), 1) == Escape(f, Other) by {
        EscapedIsPlain(f, Other);
      }
    }
  }

  /** The scan of a relative URI finds its path, its query and its fragment. */
  lemma {:induction false} RelativeSplit(v: Uri, path: octets, query: octets, fragment: octets)
    requires NoneOf(path, "?#") && NoneOf(query, "#")
    requires Unescape(path, Path).Ok? && (fragment != [] ==> fragment[0] == '#')
    ensures ParseInto(v, path + fragment) == ParseFragment(v.(path := Unescape(path, Path).value), fragment)
    ensures ParseParams(query).Ok? ==>
              ParseInto(v, path + (("?" + query) + fragment)) ==
              ParseFragment(v.(path := Unescape(path, Path).value, query := ParseParams(query).value), fragment)
  {
    hide Unescape, ParseParams, ParseFragment, FindFirstOf;
    var mark: octets := "?";
    FindPast(path, fragment, "?#");
    FindPast(path, mark + query + fragment, "?#");
    assert Tail(mark + query + fragment, 1) == query + fragment;
    FindPast(query, fragment, "#");
  }

  /** A path text followed by a printed query and fragment is read back part by part. */
  lemma PartsReadBack(text: octets, path: octets, u: Uri, v: Uri)
    requires NoneOf(text, "?#") && Unescape(text, Path) == Ok(path)
    requires v.path == [] && v.query == [] && v.fragment == []
    ensures ParseInto(v, text + (QueryText(u.query) + FragmentText(u.fragment))) ==
            Ok(v.(path := path, query := Named(u.query), fragment := u.fragment))
  {
    hide Unescape, ParseParams, ParseFragment, FindFirstOf, ParseInto, Named, ParamsText;
    var fragment := FragmentText(u.fragment);
    if u.query == [] {
      assert text + (QueryText(u.query) + fragment) == text + fragment;
      RelativeSplit(v, text, [], fragment);
      FragmentReadBack(v.(path := path), u.fragment);
      assert Named(u.query) == [] by { NamedNone(); }
    } else {
      ParamsReadBack(u.query);
      ParamsNoFragment(u.query);
      RelativeSplit(v, text, ParamsText(u.query), fragment);
      FragmentReadBack(v.(path := path, query := Named(u.query)), u.fragment);
    }
  }

  /** Parsing a printed path, query and fragment gives them back, but for an empty path and nameless parameters. */
  lemma RelativeReadBack(u: Uri, v: Uri)
    requires v.path == [] && v.query == [] && v.fragment == []
    ensures ParseInto(v, RelativeText(u)) ==
            Ok(v.(path := PathRead(u.path), query := Named(u.query), fragment := u.fragment))
  {
    PathReadBack(u);
    hide PathText, ParseInto;
    PartsReadBack(PathText(u), PathRead(u.path), u, v);
  }

  lemma NamedNone()
    ensures Named([]) == []
  {
  }

  predicate AllNamed(q: seq<(octets, octets)>) {
    forall i :: 0 <= i < |q| ==> q[i].0 != []
  }

  lemma {:induction false} NamedSame(q: seq<(octets, octets)>)
    ensures |Named(q)| <= |q|
    ensures Named(q) == q <==> AllNamed(q)
  {
    if q != [] {
      NamedSame(q[1..]);
      if q[0].0 != [] {
        assert Named(q) == [q[0]] + Named(q[1..]) && q == [q[0]] + q[1..];
        assert Named(q)[1..] == Named(q[1..]);
        assert AllNamed(q) <==> AllNamed(q[1..]) by {
          if AllNamed(q[1..]) {
            forall i | 0 <= i < |q|
              ensures q[i].0 != []
            {
              assert i > 0 ==> q[i] == q[1..][i - 1];
            }
          }
        }
      }
    }
  }

  /** The parts that every trip changes or loses. */
  predicate Printable(u: Uri) {
    u.path != [] && AllNamed(u.query)
  }

  /** What a relative URI must look like to survive. */
  predicate RelativeSafe(u: Uri) {
    Printable(u) && u.scheme == [] && u.host == [] && u.port == 0
  }

  lemma RelativeTextStart(u: Uri)
    ensures RelativeText(u) != []
    ensures RelativeText(u)[0] == '/' <==> u.path == [] || u.path[0] == '/'
  {
    if u.path != [] {
      EscapeHead(u.path, Path);
    }
  }

  /** `parseRelative` undoes `toString` exactly for a URI with a path, named parameters and no scheme, host or port. */
  lemma RelativeRoundTrip(u: Uri)
    ensures ParseRelative(ToText(u)) == Ok(u) <==> RelativeSafe(u)
  {
    hide ParseInto, RelativeText, Named;
    NamedSame(u.query);
    if u.scheme == [] && u.host == [] {
      assert ToText(u) == RelativeText(u);
      RelativeReadBack(u, EMPTY_URI);
    } else {
      ParseIntoKeeps(EMPTY_URI, ToText(u));
    }
  }

  lemma ParseIntoKeeps(v: Uri, s: octets)
    ensures ParseInto(v, s).Ok? ==>
              var r := ParseInto(v, s).value; r.scheme == v.scheme && r.host == v.host && r.port == v.port
  {
    hide Unescape, ParseParams, FindFirstOf, Tail;
  }

  // ----- absolute URIs -----

  lemma {:induction false} DecimalValue(n: nat)
    ensures DigitsValue(Decimal(n)) == n
  {
    var d := Decimal(n);
    if n < 10 {
      assert d[..0] == [];
    } else {
      DecimalValue(n / 10);
      assert d[..|d| - 1] == Decimal(n / 10);
    }
  }

  lemma {:induction false} PortReadBack(n: port16)
    ensures ParsePort(Decimal(n)) == Ok(n)
  {
    var d := Decimal(n);
    DecimalValue(n);
    assert IsDigit(d[0]);
    assert DigitCount(d) == |d| && d[..|d|] == d;
  }

  lemma DecimalNoneOf(n: nat, delimiters: octets)
    requires forall ch: octet :: IsDigit(ch) ==> ch !in delimiters
    ensures NoneOf(Decimal(n), delimiters)
  {
  }

  lemma RelativeNoColon(u: Uri)
    ensures NoneOf(RelativeText(u), ":")
  {
    hide PathText, ParamsText, Escape;
    PathReadBack(u);
    QueryNoColon(u.query);
    EscapedNoneOf(u.fragment, Other, ":");
    assert NoneOf(FragmentText(u.fragment), ":");
    hide QueryText, FragmentText;
    NoneOfConcat(QueryText(u.query), FragmentText(u.fragment), ":");
    NoneOfConcat(PathText(u), QueryText(u.query) + FragmentText(u.fragment), ":");
  }

  lemma QueryNoColon(q: seq<(octets, octets)>)
    ensures NoneOf(QueryText(q), ":")
  {
    hide ParamsText;
    if q != [] {
      ParamsNoFragment(q);
    }
  }

  /** What the part after the scheme must look like to survive. */
  predicate SafeAfterScheme(u: Uri) {
    && Printable(u)
    && if u.host == [] then u.port == 0 && !StartsWith(u.path, "//")
       else NoneOf(u.host, ":/?#") && u.path[0] == '/'
  }

  /** What an absolute or network-path URI must look like to survive. */
  predicate Safe(u: Uri) {
    SafeAfterScheme(u) && NoneOf(u.scheme, ":") && (u.scheme == [] ==> u.port == 0)
  }

  /** A host as it is printed, with its port. */
  function HostText(u: Uri): octets {
    u.host + (if u.port != 0 then ":" + Decimal(u.port) else [])
  }

  /** What follows the scheme. */
  function AfterScheme(u: Uri): octets {
    Authority(u) + RelativeText(u)
  }

  /** The scan finds an authority that contains no delimiter. */
  lemma AuthoritySplit(v: Uri, authority: octets, rest: octets)
    requires NoneOf(authority, "/?#") && (rest != [] ==> rest[0] in "/?#")
    ensures ParseAfterScheme(v, "//" + (authority + rest)) == ParseAuthority(v, authority, rest)
  {
    hide ParseAuthority, FindFirstOf;
    var slashes: octets := "//";
    assert Tail(slashes + (authority + rest), 2) == authority + rest;
    FindPast(authority, rest, "/?#");
  }

  /** A printed host and port are told apart. */
  lemma HostReadBack(u: Uri, v: Uri, rest: octets)
    requires NoneOf(u.host, ":") && v.port == 0
    ensures ParseAuthority(v, HostText(u), rest) == ParseInto(v.(host := u.host, port := u.port), rest)
  {
    hide ParseInto, ParsePort, Decimal, FindFirstOf;
    var h := HostText(u);
    if u.port == 0 {
      assert h == u.host;
      FindIs(h, ":", |h|);
      assert h[..|h|] == h;
    } else {
      var colon: octets := ":";
      FindPast(u.host, colon + Decimal(u.port), ":");
      assert h[|u.host| + 1..] == Decimal(u.port);
      PortReadBack(u.port);
    }
  }

  lemma HostNoneOf(u: Uri)
    requires NoneOf(u.host, "/?#")
    ensures NoneOf(HostText(u), "/?#")
  {
    DecimalNoneOf(u.port, "/?#");
    hide Decimal;
  }

  lemma AfterSchemeText(u: Uri)
    requires u.host != []
    ensures AfterScheme(u) == "//" + (HostText(u) + RelativeText(u))
  {
    hide RelativeText, Decimal;
    var slashes: octets := "//";
    assert slashes + u.host + (if u.port != 0 then ":" + Decimal(u.port) else []) == slashes + HostText(u);
    assert Authority(u) == slashes + HostText(u);
    assert slashes + HostText(u) + RelativeText(u) == slashes + (HostText(u) + RelativeText(u));
  }

  /** A parsed host is never longer than the authority up to its first delimiter. */
  lemma HostAtMost(v: Uri, s: octets, k: nat)
    requires v.host == [] && StartsWith(s, "//") && 2 + k <= |s|
    requires k == |s| - 2 || s[2 + k] in ":/?#"
    ensures ParseAfterScheme(v, s).Ok? ==> |ParseAfterScheme(v, s).value.host| <= k
  {
    hide ParseInto, ParsePort;
    var t := Tail(s, 2);
    assert t == s[2..];
    var authEnd := FindFirstOf(t, "/?#");
    var authority := t[..authEnd];
    var portPos := FindFirstOf(authority, ":");
    if k < |t| {
      assert t[k] == s[2 + k];
      if k < authEnd {
        assert authority[k] == t[k];
      }
    }
    ForAllHosts(v, authority, Tail(t, authEnd));
  }

  lemma ForAllHosts(v: Uri, authority: octets, rest: octets)
    requires v.host == []
    ensures var r := ParseAuthority(v, authority, rest);
            r.Ok? ==> |r.value.host| == FindFirstOf(authority, ":")
  {
    var k := FindFirstOf(authority, ":");
    hide ParseInto, ParsePort;
    if k < |authority| {
      if ParsePort(authority[k + 1..]).Ok? {
        ParseIntoKeeps(v.(host := authority[..k], port := ParsePort(authority[k + 1..]).value), rest);
      }
    } else {
      ParseIntoKeeps(v.(host := authority), rest);
    }
  }

  /** The path that is read back is empty or starts with a slash when the text starts with a delimiter. */
  lemma PathAfterAuthority(v: Uri, rest: octets)
    requires v.path == [] && (rest != [] ==> rest[0] in "/?#")
    ensures var r := ParseInto(v, rest); r.Ok? ==> r.value.path == [] || r.value.path[0] == '/'
  {
    hide ParseParams, FindFirstOf;
    var k := FindFirstOf(rest, "?#");
    if k > 0 {
      assert rest[..k][0] == rest[0] == '/';
    }
  }

  lemma SlashHead(p: octets)
    requires p != []
    ensures Escape(p, Path) != [] && (Escape(p, Path)[0] == '/' <==> p[0] == '/')
    ensures p[0] == '/' ==> Escape(p, Path)[1..] == Escape(p[1..], Path)
  {
    EscapeHead(p, Path);
  }

  lemma SlashesEscaped(p: octets)
    requires p != []
    ensures Escape(p, Path) != [] && (StartsWith(Escape(p, Path), "//") <==> StartsWith(p, "//"))
    ensures StartsWith(p, "//") ==> Escape(p, Path)[2..] == Escape(p[2..], Path)
  {
    SlashHead(p);
    if |p| > 1 {
      SlashHead(p[1..]);
      assert p[1..][1..] == p[2..];
    } else {
      assert Escape(p[1..], Path) == [] by { EscapeNone(Path); }
    }
    hide Escape;
    var e := Escape(p, Path);
    assert StartsWith(e, "//") <==> |e| > 1 && e[0] == '/' && e[1] == '/';
    if p[0] == '/' && |p| > 1 {
      assert e[1] == e[1..][0] && e[2..] == e[1..][1..];
    }
  }

  lemma SlashesFirst(text: octets, more: octets)
    requires text != [] && (more != [] ==> more[0] in "?#")
    ensures StartsWith(text + more, "//") <==> StartsWith(text, "//")
    ensures StartsWith(text, "//") ==> Tail(text + more, 2) == text[2..] + more
  {
    assert StartsWith(text, "//") <==> |text| > 1 && text[0] == '/' && text[1] == '/';
    assert StartsWith(text + more, "//") <==> |text + more| > 1 && (text + more)[0] == '/' && (text + more)[1] == '/';
    assert |text| == 1 && more != [] ==> (text + more)[1] == more[0];
  }

  /** Two leading slashes of a path are printed as they are, and only they are printed so. */
  lemma SlashesPrinted(u: Uri)
    ensures StartsWith(RelativeText(u), "//") <==> StartsWith(u.path, "//")
    ensures StartsWith(u.path, "//") ==>
              Tail(RelativeText(u), 2) == Escape(u.path[2..], Path) + (QueryText(u.query) + FragmentText(u.fragment))
  {
    var more := QueryText(u.query) + FragmentText(u.fragment);
    assert more != [] ==> more[0] in "?#";
    hide QueryText, FragmentText;
    if u.path != [] {
      SlashesEscaped(u.path);
      SlashesFirst(Escape(u.path, Path), more);
    } else {
      SlashesFirst("/", more);
    }
  }

  lemma NoHost(u: Uri, v: Uri)
    requires u.host == [] && v == EMPTY_URI.(scheme := u.scheme)
    ensures ParseAfterScheme(v, AfterScheme(u)) == Ok(u) <==> SafeAfterScheme(u)
  {
    hide ParseInto, RelativeText, ParseAuthority, Named;
    var r := RelativeText(u);
    assert AfterScheme(u) == r;
    SlashesPrinted(u);
    if StartsWith(u.path, "//") {
      SlashesTaken(u, v);
    } else {
      NamedSame(u.query);
      RelativeReadBack(u, v);
    }
  }

  /** A path that starts with two slashes is taken for an authority. */
  lemma SlashesTaken(u: Uri, v: Uri)
    requires u.host == [] && v == EMPTY_URI.(scheme := u.scheme) && StartsWith(u.path, "//")
    ensures ParseAfterScheme(v, RelativeText(u)) != Ok(u)
  {
    hide ParseInto, RelativeText, ParseAuthority, ParseAfterScheme, FindFirstOf, Escape, Named;
    var r := RelativeText(u);
    var t := Tail(r, 2);
    SlashesPrinted(u);
    AfterSchemeCases(v, r);
    var authEnd := FindFirstOf(t, "/?#");
    ForAllHosts(v, t[..authEnd], Tail(t, authEnd));
    if authEnd == 0 {
      assert Tail(t, 0) == t && t[..0] == [];
      EscapeRoundTrip(u.path[2..], Path);
      EscapedNoneOf(u.path[2..], Path, "?#");
      PartsReadBack(Escape(u.path[2..], Path), u.path[2..], u, v);
      NoAuthority(v, t);
    } else {
      TailNoColon(u);
      FindIs(t[..authEnd], ":", authEnd);
    }
  }

  lemma TailNoColon(u: Uri)
    ensures NoneOf(Tail(RelativeText(u), 2), ":")
  {
    RelativeNoColon(u);
    hide RelativeText;
    var r := RelativeText(u);
    assert |r| > 2 ==> Tail(r, 2) == r[2..];
  }

  lemma NoAuthority(v: Uri, rest: octets)
    requires v.host == []
    ensures ParseAuthority(v, [], rest) == ParseInto(v, rest)
  {
    assert v.(host := []) == v;
  }

  lemma DirtyHost(u: Uri, v: Uri)
    requires u.host != [] && !NoneOf(u.host, ":/?#") && v == EMPTY_URI.(scheme := u.scheme)
    ensures ParseAfterScheme(v, AfterScheme(u)) != Ok(u)
  {
    hide ParseAfterScheme, RelativeText, Decimal, Authority, AfterScheme;
    AfterSchemeText(u);
    var k := FindFirstOf(u.host, ":/?#");
    var s := AfterScheme(u);
    assert s[2 + k] == u.host[k];
    HostAtMost(v, s, k);
  }

  lemma CleanHost(u: Uri, v: Uri)
    requires u.host != [] && NoneOf(u.host, ":/?#") && v == EMPTY_URI.(scheme := u.scheme)
    ensures ParseAfterScheme(v, AfterScheme(u)) == Ok(u) <==> SafeAfterScheme(u)
  {
    hide ParseInto, ParseAuthority, ParseAfterScheme, FindFirstOf;
    hide RelativeText, Named, HostText, Authority, AfterScheme;
    AfterSchemeText(u);
    HostNoneOf(u);
    RelativeTextStart(u);
    NamedSame(u.query);
    var r := RelativeText(u);
    if r[0] == '/' {
      AuthoritySplit(v, HostText(u), r);
      HostReadBack(u, v, r);
      RelativeReadBack(u, v.(host := u.host, port := u.port));
    } else {
      AfterSchemeCases(v, AfterScheme(u));
      var t := Tail(AfterScheme(u), 2);
      var authEnd := FindFirstOf(t, "/?#");
      PathAfterHost(v, t[..authEnd], Tail(t, authEnd));
    }
  }

  lemma PathAfterHost(v: Uri, authority: octets, rest: octets)
    requires v.path == [] && (rest != [] ==> rest[0] in "/?#")
    ensures var r := ParseAuthority(v, authority, rest); r.Ok? ==> r.value.path == [] || r.value.path[0] == '/'
  {
    var k := FindFirstOf(authority, ":");
    hide ParseInto, ParsePort;
    if k < |authority| {
      if ParsePort(authority[k + 1..]).Ok? {
        PathAfterAuthority(v.(host := authority[..k], port := ParsePort(authority[k + 1..]).value), rest);
      }
    } else {
      PathAfterAuthority(v.(host := authority), rest);
    }
  }

  lemma AfterSchemeReadBack(u: Uri, v: Uri)
    requires v == EMPTY_URI.(scheme := u.scheme)
    ensures ParseAfterScheme(v, AfterScheme(u)) == Ok(u) <==> SafeAfterScheme(u)
  {
    if u.host == [] {
      NoHost(u, v);
    } else if NoneOf(u.host, ":/?#") {
      CleanHost(u, v);
    } else {
      DirtyHost(u, v);
    }
  }

  lemma SchemeKept(v: Uri, s: octets)
    ensures ParseAfterScheme(v, s).Ok? ==> ParseAfterScheme(v, s).value.scheme == v.scheme
  {
    hide ParseInto, ParsePort;
    if StartsWith(s, "//") {
      var t := Tail(s, 2);
      var authEnd := FindFirstOf(t, "/?#");
      SchemeKeptAuthority(v, t[..authEnd], Tail(t, authEnd));
    } else {
      ParseIntoKeeps(v, s);
    }
  }

  lemma SchemeKeptAuthority(v: Uri, authority: octets, rest: octets)
    ensures var r := ParseAuthority(v, authority, rest); r.Ok? ==> r.value.scheme == v.scheme
  {
    var k := FindFirstOf(authority, ":");
    hide ParseInto, ParsePort;
    if k < |authority| {
      if ParsePort(authority[k + 1..]).Ok? {
        ParseIntoKeeps(v.(host := authority[..k], port := ParsePort(authority[k + 1..]).value), rest);
      }
    } else {
      ParseIntoKeeps(v.(host := authority), rest);
    }
  }

  /** `Uri::parse` undoes `Uri::toString` exactly for the safe URIs. */
  lemma AbsoluteRoundTrip(u: Uri)
    ensures Parse(ToText(u)) == Ok(u) <==> Safe(u)
  {
    hide ParseAfterScheme, AfterScheme;
    AfterSchemeReadBack(u, EMPTY_URI.(scheme := u.scheme));
    if u.scheme != [] {
      WithScheme(u);
    } else {
      WithoutScheme(u);
    }
  }

  /** What does not survive: the empty path is printed as a slash, and read back as one. */
  lemma EmptyPathFilled()
    ensures ToText(EMPTY_URI) == "/"
    ensures ParseRelative(ToText(EMPTY_URI)) == Parse(ToText(EMPTY_URI)) == Ok(EMPTY_URI.(path := "/"))
  {
    hide Escape, Parse, ParseRelative;
    var u := EMPTY_URI.(path := "/");
    EscapeSlash();
    assert ToText(EMPTY_URI) == ToText(u) == "/";
    RelativeRoundTrip(u);
    AbsoluteRoundTrip(u);
  }

  lemma WithScheme(u: Uri)
    requires u.scheme != []
    ensures Parse(ToText(u)) == Ok(u) <==>
            NoneOf(u.scheme, ":") && ParseAfterScheme(EMPTY_URI.(scheme := u.scheme), AfterScheme(u)) == Ok(u)
  {
    hide ParseAfterScheme, AfterScheme, FindFirstOf, ToText, Parse;
    var s, a := ToText(u), AfterScheme(u);
    var colon: octets := ":";
    AfterSchemeIs(u);
    ParseCases(s);
    if NoneOf(u.scheme, ":") {
      FindPast(u.scheme, colon + a, ":");
      assert Tail(s, |u.scheme| + 1) == a;
    } else {
      var k := FindFirstOf(u.scheme, ":");
      FindIs(s, ":", k);
      SchemeKept(EMPTY_URI.(scheme := s[..k]), Tail(s, k + 1));
    }
  }

  lemma AfterSchemeIs(u: Uri)
    ensures u.scheme == [] ==> ToText(u) == AfterScheme(u)
    ensures u.scheme != [] ==> ToText(u) == u.scheme + (":" + AfterScheme(u))
  {
    hide Authority, RelativeText;
  }

  lemma NoneOfConcat(a: octets, b: octets, delimiters: octets)
    ensures NoneOf(a + b, delimiters) <==> NoneOf(a, delimiters) && NoneOf(b, delimiters)
  {
    if NoneOf(a + b, delimiters) {
      assert forall i :: 0 <= i < |a| ==> a[i] == (a + b)[i];
      assert forall i :: 0 <= i < |b| ==> b[i] == (a + b)[|a| + i];
    }
  }

  /** Without a scheme a colon is printed only in a host or before a port. */
  lemma ColonPrinted(u: Uri)
    ensures NoneOf(AfterScheme(u), ":") <==> u.host == [] || (NoneOf(u.host, ":") && u.port == 0)
  {
    RelativeNoColon(u);
    hide RelativeText;
    var slashes, colon: octets := "//", ":";
    if u.host == [] {
      assert AfterScheme(u) == RelativeText(u);
    } else {
      AfterSchemeText(u);
      hide AfterScheme;
      NoneOfConcat(slashes, HostText(u) + RelativeText(u), ":");
      NoneOfConcat(HostText(u), RelativeText(u), ":");
      NoneOfConcat(u.host, if u.port != 0 then colon + Decimal(u.port) else [], ":");
      assert colon[0] == ':' && !NoneOf(colon, ":");
      NoneOfConcat(colon, Decimal(u.port), ":");
    }
  }

  /** Without a scheme the first colon, if there is one, is taken for the end of a scheme. */
  lemma WithoutScheme(u: Uri)
    requires u.scheme == []
    ensures Parse(ToText(u)) == Ok(u) <==>
            (u.host != [] ==> u.port == 0) && ParseAfterScheme(EMPTY_URI, AfterScheme(u)) == Ok(u)
  {
    AfterSchemeIs(u);
    ColonPrinted(u);
    var s := ToText(u);
    var k := FindFirstOf(s, ":");
    if k < |s| {
      SchemeKept(EMPTY_URI.(scheme := s[..k]), Tail(s, k + 1));
      assert u.host != [];
      AfterSchemeText(u);
      assert s[0] == '/';
      if u.port == 0 {
        var i :| 0 <= i < |u.host| && u.host[i] in ":";
        assert u.host[i] in ":/?#";
        DirtyHost(u, EMPTY_URI);
      }
    }
    hide ParseAfterScheme, AfterScheme;
  }

  // ----- the code -----

  method ToString(u: Uri) returns (out: octets)
    ensures out == ToText(u)
  {
    hide Decimal, Authority, RelativeText;
    out := [];
    if u.scheme != [] {
      out := u.scheme + ":";
    }
    AuthorityAppended(out, u);
    if u.host != [] {
      out := out + "//" + u.host;
      if u.port != 0 {
        out := out + ":" + Decimal(u.port);
      }
    }
    Regroup(SchemeText(u), Authority(u), RelativeText(u));
    out := AppendRelative(out, u);
  }

  lemma AuthorityAppended(prefix: octets, u: Uri)
    ensures prefix + Authority(u) ==
            if u.host == [] then prefix
            else if u.port == 0 then prefix + "//" + u.host
            else prefix + "//" + u.host + ":" + Decimal(u.port)
  {
    hide Decimal;
    var slashes, colon: octets := "//", ":";
    if u.host != [] {
      Regroup(prefix, slashes, u.host);
      if u.port == 0 {
        assert slashes + u.host + [] == slashes + u.host;
      } else {
        Regroup(prefix, slashes + u.host, colon + Decimal(u.port));
        Regroup(prefix + slashes + u.host, colon, Decimal(u.port));
      }
    }
  }

  lemma Regroup(a: octets, b: octets, c: octets)
    ensures a + b + c == a + (b + c)
  {
  }

  /** Path, query and fragment. */
  method AppendRelative(prefix: octets, u: Uri) returns (out: octets)
    ensures out == prefix + RelativeText(u)
  {
    hide Escape, ParamsText;
    var question, hash: octets := "?", "#";
    if u.path != [] {
      out := UriEscapeTo(prefix, u.path, Path);
    } else {
      out := prefix + "/";
    }
    Regroup(out, question, if u.query != [] then ParamsText(u.query) else []);
    if u.query != [] {
      out := AppendQuery(out + question, u.query);
    }
    Regroup(out, hash, Escape(u.fragment, Other));
    if u.fragment != [] {
      out := UriEscapeTo(out + hash, u.fragment, Other);
    }
    PartsAppended(prefix, PathText(u), QueryText(u.query), FragmentText(u.fragment));
  }

  lemma PartsAppended(prefix: octets, path: octets, query: octets, fragment: octets)
    ensures prefix + path + query + fragment == prefix + (path + (query + fragment))
    ensures prefix + path + [] == prefix + path && prefix + path + query + [] == prefix + path + query
  {
    Regroup(prefix + path, query, fragment);
    Regroup(prefix, path, query + fragment);
  }

  /** The parameters, each with an ampersand of which the last is taken back. */
  method AppendQuery(prefix: octets, q: seq<(octets, octets)>) returns (out: octets)
    requires q != []
    ensures out == prefix + ParamsText(q)
  {
    hide Escape;
    out := prefix;
    for i := 0 to |q|
      invariant out == prefix + ParamsAmp(q[..i])
    {
      ghost var before := out;
      out := UriEscapeTo(out, q[i].0, Query);
      out := out + "=";
      out := UriEscapeTo(out, q[i].1, Query);
      out := out + "&";
      assert q[..i + 1][..i] == q[..i];
      assert out == before + (ParamText(q[i]) + "&");
    }
    assert q[..|q|] == q;
    AmpTakenBack(q);
    out := out[..|out| - 1];
  }

  function ParamsAmp(q: seq<(octets, octets)>): octets {
    if q == [] then [] else ParamsAmp(q[..|q| - 1]) + (ParamText(q[|q| - 1]) + "&")
  }

  lemma {:induction false} AmpHead(q: seq<(octets, octets)>)
    requires q != []
    ensures ParamsAmp(q) == ParamText(q[0]) + "&" + ParamsAmp(q[1..])
    decreases |q|
  {
    hide ParamText;
    if |q| == 1 {
      assert q[..0] == [] && q[1..] == [];
    } else {
      var init := q[..|q| - 1];
      AmpHead(init);
      assert init[1..] == q[1..][..|q| - 2];
    }
  }

  lemma {:induction false} AmpTakenBack(q: seq<(octets, octets)>)
    requires q != []
    ensures ParamsAmp(q) == ParamsText(q) + "&"
    decreases |q|
  {
    hide ParamText;
    AmpHead(q);
    if |q| > 1 {
      AmpTakenBack(q[1..]);
    } else {
      assert q[1..] == [];
    }
  }

  function AfterParams(query: seq<(octets, octets)>, r: Result<seq<(octets, octets)>>): Result<seq<(octets, octets)>> {
    match r
    case Err(e) => Err(e)
    case Ok(q) => Ok(query + q)
  }

  /** The loop over the parameters of a query. */
  method ParseQuery(text: octets) returns (result: Result<seq<(octets, octets)>>)
    ensures result == ParseParams(text)
  {
    hide ParseParam;
    var query: seq<(octets, octets)> := [];
    var strQuery := text;
    AfterNothing(ParseParams(text));
    while strQuery != []
      invariant ParseParams(text) == AfterParams(query, ParseParams(strQuery))
      decreases |strQuery|
    {
      var param := ParseParam(strQuery);
      match param
      case Err(e) => return Err(e);
      case Ok(p) =>
        AfterMore(query, p.entry, ParseParams(p.rest));
        query := query + p.entry;
        strQuery := p.rest;
    }
    assert query + [] == query;
    result := Ok(query);
  }

  lemma AfterNothing(r: Result<seq<(octets, octets)>>)
    ensures AfterParams([], r) == r
  {
    if r.Ok? {
      assert [] + r.value == r.value;
    }
  }

  lemma AfterMore(query: seq<(octets, octets)>, entry: seq<(octets, octets)>, r: Result<seq<(octets, octets)>>)
    ensures AfterParams(query + entry, r) == AfterParams(query, AfterParams(entry, r))
  {
    if r.Ok? {
      assert query + entry + r.value == query + (entry + r.value);
    }
  }

  /** `parseRelativeUri`: fills the path, the query and the fragment of `out`. */
  method ParseRelativeUri(out: Uri, text: octets) returns (result: Result<Uri>)
    ensures result == ParseInto(out, text)
  {
    hide ParseParams, Unescape;
    var uri := out;
    var pathEnd := FindFirstOf(text, "?#");
    var path := UriUnescapeTo([], text[..pathEnd], Path);
    UnescapedAlone(Unescape(text[..pathEnd], Path));
    if path.Err? {
      return Err(path.error);
    }
    uri := uri.(path := path.value);
    var rest := Tail(text, pathEnd);
    if rest != [] && rest[0] == '?' {
      rest := Tail(rest, 1);
      var queryEnd := FindFirstOf(rest, "#");
      var query := ParseQuery(rest[..queryEnd]);
      if query.Err? {
        return Err(query.error);
      }
      uri := uri.(query := query.value);
      rest := Tail(rest, queryEnd);
    }
    if rest != [] && rest[0] == '#' {
      var fragment := UriUnescapeTo([], Tail(rest, 1), Other);
      UnescapedAlone(Unescape(Tail(rest, 1), Other));
      if fragment.Err? {
        return Err(fragment.error);
      }
      uri := uri.(fragment := fragment.value);
    }
    result := Ok(uri);
  }

  lemma UnescapedAlone(r: Result<octets>)
    ensures Append([], r) == r
  {
    if r.Ok? {
      assert [] + r.value == r.value;
    }
  }

  /** `Uri::parse` */
  method ParseUri(text: octets) returns (result: Result<Uri>)
    ensures result == Parse(text)
  {
    hide ParseInto, ParsePort, Parse, ParseAfterScheme, ParseAuthority, FindFirstOf, Tail;
    var uri, rest := EMPTY_URI, text;
    ParseCases(text);
    var schemeEnd := FindFirstOf(rest, ":");
    if schemeEnd < |rest| {
      uri := uri.(scheme := rest[..schemeEnd]);
      rest := Tail(rest, schemeEnd + 1);
    }
    AfterSchemeCases(uri, rest);
    if StartsWith(rest, "//") {
      rest := Tail(rest, 2);
      var authEnd := FindFirstOf(rest, "/?#");
      var authority := rest[..authEnd];
      rest := Tail(rest, authEnd);
      AuthorityCases(uri, authority, rest);
      var portPos := FindFirstOf(authority, ":");
      if portPos < |authority| {
        var port := ParsePort(authority[portPos + 1..]);
        if port.Err? {
          return Err(port.error);
        }
        uri := uri.(host := authority[..portPos], port := port.value);
      } else {
        uri := uri.(host := authority);
      }
    }
    result := ParseRelativeUri(uri, rest);
  }

  // The three parts of the parser, each unfolded alone.

  lemma ParseCases(s: octets)
    ensures var k := FindFirstOf(s, ":");
            Parse(s) == if k < |s| then ParseAfterScheme(EMPTY_URI.(scheme := s[..k]), Tail(s, k + 1))
                        else ParseAfterScheme(EMPTY_URI, s)
  {
    hide ParseAfterScheme, FindFirstOf;
  }

  lemma AfterSchemeCases(u: Uri, s: octets)
    ensures ParseAfterScheme(u, s) ==
            if !StartsWith(s, "//") then ParseInto(u, s)
            else
              var t := Tail(s, 2);
              var k := FindFirstOf(t, "/?#");
              ParseAuthority(u, t[..k], Tail(t, k))
  {
    hide ParseAuthority, ParseInto, FindFirstOf;
  }

  lemma AuthorityCases(u: Uri, authority: octets, rest: octets)
    ensures var k := FindFirstOf(authority, ":");
            ParseAuthority(u, authority, rest) ==
            if k == |authority| then ParseInto(u.(host := authority), rest)
            else match ParsePort(authority[k + 1..])
                 case Err(e) => Err(e)
                 case Ok(port) => ParseInto(u.(host := authority[..k], port := port), rest)
  {
    hide ParsePort, ParseInto, FindFirstOf;
  }
}
