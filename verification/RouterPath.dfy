/** Paths as the router cuts them: strings on one side, lists of segments on the other. */
module RouterPath {
  type Pattern = seq<string>

  /** The position of the first slash at or after `from`, or the length of the path. */
  function FindSlash(path: string, from: nat): (k: nat)
    requires from <= |path|
    ensures from <= k <= |path|
    ensures forall i :: from <= i < k ==> path[i] != '/'
    ensures k < |path| ==> path[k] == '/'
    decreases |path| - from
  {
    if from == |path| || path[from] == '/' then from else FindSlash(path, from + 1)
  }

  /** The position of the last slash, or None. */
  function FindLastSlash(path: string): (k: int)
    ensures -1 <= k < |path|
    ensures forall i :: k < i < |path| ==> path[i] != '/'
    ensures k >= 0 ==> path[k] == '/'
  {
    if path == "" then -1
    else if path[|path| - 1] == '/' then |path| - 1
    else FindLastSlash(path[..|path| - 1])
  }

  function HeadSegmentAndTail(path: string): (r: (string, string))
    ensures path != "" ==> |r.1| < |path|
  {
    var pos := FindSlash(path, 0);
    if pos == |path| then (path, "") else (path[..pos], path[pos + 1..])
  }

  function HeadAndTailSegment(path: string): (r: (string, string))
    ensures path != "" ==> |r.0| < |path|
  {
    var pos := FindLastSlash(path);
    if pos < 0 then ("", path) else (path[..pos], path[pos + 1..])
  }

  predicate IsParamSegment(segment: string) {
    segment != "" && segment[0] == ':'
  }

  /** The segments the router walks through, head first. */
  function Segments(path: string): Pattern
    decreases |path|
  {
    if path == "" then []
    else
      var (head, tail) := HeadSegmentAndTail(path);
      [head] + Segments(tail)
  }

  lemma SegmentsHead(path: string)
    requires path != ""
    ensures var (head, tail) := HeadSegmentAndTail(path); Segments(path) == [head] + Segments(tail)
    ensures var (head, tail) := HeadSegmentAndTail(path);
            AllSegments(Segments(path)) ==> IsSegment(head) && AllSegments(Segments(tail))
  {
    var (head, tail) := HeadSegmentAndTail(path);
    var p := Segments(path);
    assert p == [head] + Segments(tail);
    assert Segments(tail) == p[1..] && head == p[0];
  }

  function Join(segments: Pattern): string {
    if segments == [] then ""
    else if |segments| == 1 then segments[0]
    else segments[0] + "/" + Join(segments[1..])
  }

  predicate IsSegment(s: string) {
    s != "" && '/' !in s
  }

  predicate AllSegments(p: Pattern) {
    forall i :: 0 <= i < |p| ==> IsSegment(p[i])
  }

  /** What `normalizePath` is assumed to deliver: no empty segment, no slash at either end. */
  predicate Normalized(path: string) {
    AllSegments(Segments(path)) && Join(Segments(path)) == path
  }

  // ----- normalizing -----

  /** A path cut at every slash. */
  function Pieces(path: string): (r: seq<string>)
    decreases |path|
  {
    var pos := FindSlash(path, 0);
    if pos == |path| then [path] else [path[..pos]] + Pieces(path[pos + 1..])
  }

  function NonEmpty(pieces: seq<string>): Pattern {
    if pieces == [] then []
    else (if pieces[0] == "" then [] else [pieces[0]]) + NonEmpty(pieces[1..])
  }

  /** The names that a path text lists, whatever its slashes. */
  function Listed(path: string): Pattern {
    NonEmpty(Pieces(path))
  }

  predicate IsAbsolute(path: string) {
    path != "" && path[0] == '/'
  }

  /** One more name on the way: `.` says nothing, `..` takes back the name before it; nothing is above the root. */
  function Follow(way: Pattern, name: string, absolute: bool): Pattern {
    if name == "." then way
    else if name != ".." then way + [name]
    else if way != [] && Last(way) != ".." then Init(way)
    else if absolute then way
    else way + [".."]
  }

  function Resolve(names: Pattern, absolute: bool): Pattern {
    if names == [] then [] else Follow(Resolve(Init(names), absolute), Last(names), absolute)
  }

  /** What `lexically_normal` makes of the names of a path; a relative path that leads nowhere is a dot. */
  function Names(path: string): Pattern {
    var way := Resolve(Listed(path), IsAbsolute(path));
    if way == [] && path != "" && !IsAbsolute(path) then ["."] else way
  }

  /** `normalizePath` */
  function NormalizePath(path: string): string {
    Join(Names(path))
  }

  /** Where `prefix/path` leads when `path` lists the names `k`. */
  function Spot(prefix: string, k: Pattern): Pattern {
    var absolute := prefix == "" || IsAbsolute(prefix);
    var way := Resolve(Listed(prefix) + k, absolute);
    if way == [] && !absolute then ["."] else way
  }

  /** Names that stay as they are: no dot, and two dots only at the beginning of a relative path. */
  predicate Clean(p: Pattern, absolute: bool) {
    forall i :: 0 <= i < |p| ==>
      p[i] != "." && (p[i] == ".." ==> !absolute && forall j :: 0 <= j < i ==> p[j] == "..")
  }

  lemma {:induction false} ListedAreSegments(path: string)
    ensures AllSegments(Listed(path))
    decreases |path|
  {
    var pos := FindSlash(path, 0);
    if pos < |path| {
      ListedAreSegments(path[pos + 1..]);
    } else {
      assert NonEmpty([path]) == if path == "" then [] else [path];
    }
  }

  lemma {:induction false} ResolveKeeps(names: Pattern, absolute: bool)
    ensures Clean(Resolve(names, absolute), absolute) && |Resolve(names, absolute)| <= |names|
    ensures AllSegments(names) ==> AllSegments(Resolve(names, absolute))
  {
    if names != [] {
      ResolveKeeps(Init(names), absolute);
      FollowKeeps(Resolve(Init(names), absolute), Last(names), absolute);
    }
  }

  lemma FollowKeeps(way: Pattern, name: string, absolute: bool)
    requires Clean(way, absolute)
    ensures Clean(Follow(way, name, absolute), absolute) && |Follow(way, name, absolute)| <= |way| + 1
    ensures AllSegments(way) && IsSegment(name) ==> AllSegments(Follow(way, name, absolute))
  {
    if way != [] && Last(way) == ".." {
      assert way[|way| - 1] == "..";
    }
  }

  /** Names that are clean are left alone, and only they are. */
  lemma {:induction false} CleanIff(p: Pattern, absolute: bool)
    ensures Resolve(p, absolute) == p <==> Clean(p, absolute)
  {
    hide Clean, Follow;
    ResolveKeeps(p, absolute);
    if p != [] && Clean(p, absolute) {
      CleanInit(p, absolute);
      CleanIff(Init(p), absolute);
    } else if p == [] {
      CleanNone(absolute);
    }
  }

  /** What is not left alone gets shorter. */
  lemma {:induction false} ResolveShorter(p: Pattern, absolute: bool)
    ensures |Resolve(p, absolute)| <= |p| && (|Resolve(p, absolute)| == |p| ==> Resolve(p, absolute) == p)
  {
    if p != [] {
      ResolveShorter(Init(p), absolute);
      assert p == Init(p) + [Last(p)];
    }
  }

  lemma CleanNone(absolute: bool)
    ensures Clean([], absolute)
  {
  }

  lemma CleanInit(p: Pattern, absolute: bool)
    requires p != [] && Clean(p, absolute)
    ensures Clean(Init(p), absolute) && Follow(Init(p), Last(p), absolute) == p
  {
    hide Clean;
    CleanPrefix(p, |p| - 1, absolute);
    CleanLast(p, absolute);
    assert p == Init(p) + [Last(p)];
  }

  lemma CleanLast(p: Pattern, absolute: bool)
    requires p != [] && Clean(p, absolute)
    ensures Last(p) != "." && (Last(p) == ".." ==> !absolute && (Init(p) == [] || Last(Init(p)) == ".."))
  {
    var n := |p| - 1;
    assert p[n] == ".." && n > 0 ==> p[n - 1] == "..";
  }

  lemma {:induction false} ResolveNext(names: Pattern, name: string, absolute: bool)
    ensures Resolve(names + [name], absolute) == Follow(Resolve(names, absolute), name, absolute)
  {
    hide Follow;
    assert Init(names + [name]) == names;
  }

  /** Resolving what comes first changes nothing. */
  lemma {:induction false} ResolveOnto(a: Pattern, b: Pattern, absolute: bool)
    ensures Resolve(a + b, absolute) == Resolve(Resolve(a, absolute) + b, absolute)
    decreases |b|
  {
    hide Follow;
    var way := Resolve(a, absolute);
    if b == [] {
      ResolveKeeps(a, absolute);
      CleanIff(way, absolute);
      assert a + b == a && way + b == way;
    } else {
      ResolveOnto(a, Init(b), absolute);
      assert Init(a + b) == a + Init(b) && Init(way + b) == way + Init(b);
    }
  }

  lemma NamesAreSegments(path: string)
    ensures AllSegments(Names(path))
  {
    ListedAreSegments(path);
    ResolveKeeps(Listed(path), IsAbsolute(path));
  }

  /** The router's own walk through a normalized path meets its names. */
  lemma Normalizes(path: string)
    ensures Normalized(NormalizePath(path)) && Segments(NormalizePath(path)) == Names(path)
  {
    NamesAreSegments(path);
    SegmentsOfJoin(Names(path));
  }

  lemma {:induction false} NonEmptyAppend(a: seq<string>, b: seq<string>)
    ensures NonEmpty(a + b) == NonEmpty(a) + NonEmpty(b)
  {
    if a == [] {
      assert a + b == b;
    } else {
      assert (a + b)[1..] == a[1..] + b;
      NonEmptyAppend(a[1..], b);
    }
  }

  lemma ListedConcat(a: string, b: string)
    ensures Listed(a + "/" + b) == Listed(a) + Listed(b)
  {
    PiecesConcat(a, b);
    NonEmptyAppend(Pieces(a), Pieces(b));
  }

  lemma {:induction false} PiecesConcat(a: string, b: string)
    ensures Pieces(a + "/" + b) == Pieces(a) + Pieces(b)
    decreases |a|
  {
    hide Pieces, FindSlash;
    var pos, whole := FindSlash(a, 0), a + "/" + b;
    if pos == |a| {
      FirstSlash(a, b);
      PiecesNone(a);
      PiecesFirst(whole, pos);
      assert whole[..pos] == a && whole[pos + 1..] == b;
    } else {
      var rest := a[pos + 1..];
      CutEarlier(a, b, pos);
      PiecesConcat(rest, b);
      PiecesFirst(whole, pos);
      PiecesFirst(a, pos);
      assert [a[..pos]] + (Pieces(rest) + Pieces(b)) == [a[..pos]] + Pieces(rest) + Pieces(b);
    }
  }

  lemma PiecesNone(path: string)
    requires FindSlash(path, 0) == |path|
    ensures Pieces(path) == [path]
  {
  }

  lemma {:induction false} CutEarlier(a: string, b: string, pos: nat)
    requires pos == FindSlash(a, 0) < |a|
    ensures var whole := a + "/" + b;
            FindSlash(whole, 0) == pos && whole[..pos] == a[..pos] && whole[pos + 1..] == a[pos + 1..] + "/" + b
  {
    var whole := a + "/" + b;
    assert forall i | 0 <= i < |a| :: whole[i] == a[i];
    SlashAt(whole, pos);
    assert whole[..pos] == a[..pos];
    assert whole[pos + 1..] == a[pos + 1..] + "/" + b;
  }

  lemma SlashAt(path: string, pos: nat)
    requires pos < |path| && path[pos] == '/' && forall i | 0 <= i < pos :: path[i] != '/'
    ensures FindSlash(path, 0) == pos
  {
    hide FindSlash;
    var k := FindSlash(path, 0);
    assert k >= pos;
  }

  lemma PiecesFirst(path: string, pos: nat)
    requires pos == FindSlash(path, 0) < |path|
    ensures Pieces(path) == [path[..pos]] + Pieces(path[pos + 1..])
  {
  }

  lemma {:induction false} ListedJoin(p: Pattern)
    requires AllSegments(p)
    ensures Listed(Join(p)) == p
  {
    if p == [] {
      assert Listed("") == NonEmpty([""]);
    } else if |p| == 1 {
      NameAlone(p[0]);
    } else {
      ListedJoin(p[1..]);
      ListedConcat(p[0], Join(p[1..]));
      NameAlone(p[0]);
    }
  }

  /** Nothing is above the root: a path that begins with a slash keeps no dots. */
  lemma AbsoluteNames(path: string)
    requires path != "" && path[0] == '/'
    ensures "." !in Names(path) && ".." !in Names(path)
  {
    ResolveKeeps(Listed(path), true);
  }

  /** A path is left alone exactly if its names are clean, or it is a dot. */
  lemma NamesOfJoin(p: Pattern)
    requires AllSegments(p)
    ensures Names(Join(p)) == p <==> p == ["."] || Clean(p, false)
  {
    hide Clean, Resolve;
    ListedJoin(p);
    CleanIff(p, false);
    JoinStart(p);
    CleanDot();
  }

  lemma JoinStart(p: Pattern)
    requires AllSegments(p)
    ensures !IsAbsolute(Join(p)) && (Join(p) == "" <==> p == [])
  {
    if p != [] {
      assert IsSegment(p[0]) && p[0][0] in p[0];
    }
  }

  lemma CleanDot()
    ensures Clean([], false) && !Clean(["."], false) && Resolve(["."], false) == []
  {
    assert ["."][0] == ".";
    assert Init(["."]) == [] && Resolve([], false) == [];
  }

  /** Normalizing twice is normalizing once. */
  lemma NormalizeTwice(path: string)
    ensures NormalizePath(NormalizePath(path)) == NormalizePath(path)
  {
    NamesAreSegments(path);
    ResolveKeeps(Listed(path), IsAbsolute(path));
    NamesOfJoin(Names(path));
  }

  lemma SpotIs(prefix: string, path: string)
    ensures Names(prefix + "/" + path) == Spot(prefix, Listed(path))
  {
    hide Resolve;
    ListedConcat(prefix, path);
    var whole, slash := prefix + "/" + path, "/";
    assert whole[0] == if prefix == "" then slash[0] else prefix[0];
  }

  /** What is mounted stays under its prefix exactly if its names take back none of the prefix and no dot is in them. */
  lemma SpotUnder(prefix: string, k: Pattern)
    ensures Spot(prefix, k) == Names(prefix) + k <==>
            k == [] || Clean(Names(prefix) + k, prefix == "" || IsAbsolute(prefix))
  {
    hide Resolve, Clean;
    var absolute := prefix == "" || IsAbsolute(prefix);
    var way := Resolve(Listed(prefix), absolute);
    NameAlone("");
    ResolveNone();
    if k == [] {
      assert Listed(prefix) + k == Listed(prefix) && Names(prefix) + k == Names(prefix);
    } else {
      ResolveOnto(Listed(prefix), k, absolute);
      ResolveKeeps(way + k, absolute);
      CleanIff(way + k, absolute);
      DotUnclean(k, absolute);
    }
  }

  /** What does not stay under its prefix lands higher up. */
  lemma SpotHigher(prefix: string, k: Pattern)
    ensures Spot(prefix, k) != Names(prefix) + k ==> |Spot(prefix, k)| < |Names(prefix)| + |k|
  {
    hide Resolve, Clean;
    var absolute := prefix == "" || IsAbsolute(prefix);
    var way := Resolve(Listed(prefix), absolute);
    NameAlone("");
    ResolveNone();
    ResolveOnto(Listed(prefix), k, absolute);
    ResolveShorter(way + k, absolute);
    if k == [] {
      SpotUnder(prefix, k);
    }
  }

  lemma {:induction false} CleanPrefix(p: Pattern, n: nat, absolute: bool)
    requires n <= |p| && Clean(p, absolute)
    ensures Clean(p[..n], absolute)
  {
  }

  lemma ResolveNone()
    ensures forall absolute :: Resolve([], absolute) == []
  {
  }

  lemma DotUnclean(k: Pattern, absolute: bool)
    ensures !Clean(["."] + k, absolute)
  {
    assert (["."] + k)[0] == ".";
  }

  /** On the way a dot, or a name taken back at once, changes nothing. */
  lemma DotsCancel(a: string, x: string, b: string)
    requires IsSegment(x) && x != "." && x != ".."
    ensures Names(a + "/./" + b) == Names(a + "/" + b) == Names(a + "/" + (x + "/../" + b))
  {
    hide Resolve, Listed;
    var absolute, way := a == "" || IsAbsolute(a), Listed(a);
    var dot, dots := ".", "..";
    NameAlone(dot);
    NameAlone(dots);
    NameAlone(x);
    ListedConcat(dot, b);
    ListedConcat(x, dots + "/" + b);
    ListedConcat(dots, b);
    SpotIs(a, dot + "/" + b);
    SpotIs(a, x + "/" + (dots + "/" + b));
    SpotIs(a, b);
    assert a + "/" + (dot + "/" + b) == a + "/./" + b;
    assert x + "/" + (dots + "/" + b) == x + "/../" + b;
    DotsResolved(way, x, absolute);
    ResolveOnto(way + [dot], Listed(b), absolute);
    ResolveOnto(way + [x, dots], Listed(b), absolute);
    ResolveOnto(way, Listed(b), absolute);
    assert way + ([dot] + Listed(b)) == way + [dot] + Listed(b);
    assert way + ([x] + ([dots] + Listed(b))) == way + [x, dots] + Listed(b);
  }

  lemma DotsResolved(way: Pattern, x: string, absolute: bool)
    requires x != "." && x != ".."
    ensures Resolve(way + ["."], absolute) == Resolve(way, absolute) == Resolve(way + [x, ".."], absolute)
  {
    hide Follow, Resolve;
    ResolveNext(way, ".", absolute);
    ResolveNext(way, x, absolute);
    ResolveNext(way + [x], "..", absolute);
    assert way + [x] + [".."] == way + [x, ".."];
    Followed(Resolve(way, absolute), x, absolute);
  }

  lemma Followed(r: Pattern, x: string, absolute: bool)
    requires x != "." && x != ".."
    ensures Follow(r, ".", absolute) == r && Follow(Follow(r, x, absolute), "..", absolute) == r
  {
    assert Init(r + [x]) == r && Last(r + [x]) == x;
  }

  lemma NameAlone(s: string)
    requires IsSegment(s) || s == ""
    ensures Listed(s) == if s == "" then [] else [s]
  {
    FirstSlash(s, "");
    assert Pieces(s) == [s];
    assert NonEmpty([s]) == if s == "" then [] else [s];
  }

  function Init(p: Pattern): Pattern
    requires p != []
  {
    p[..|p| - 1]
  }

  function Last(p: Pattern): string
    requires p != []
  {
    p[|p| - 1]
  }

  lemma FirstSlash(head: string, tail: string)
    requires '/' !in head
    ensures FindSlash(head + "/" + tail, 0) == |head|
    ensures FindSlash(head, 0) == |head|
  {
    var path, slash := head + "/" + tail, "/";
    assert path[|head|] == slash[0];
    assert forall i :: 0 <= i < |head| ==> path[i] == head[i] && head[i] in head;
  }

  /** The first segment of a joined path, and the rest. */
  lemma JoinHead(p: Pattern)
    requires p != [] && AllSegments(p)
    ensures Join(p) != "" && HeadSegmentAndTail(Join(p)) == (p[0], Join(p[1..]))
  {
    assert IsSegment(p[0]);
    FirstSlash(p[0], Join(p[1..]));
    if |p| > 1 {
      assert Join(p)[..|p[0]|] == p[0] && Join(p)[|p[0]| + 1..] == Join(p[1..]);
    } else {
      assert p[1..] == [];
    }
  }

  lemma {:induction false} SegmentsOfJoin(p: Pattern)
    requires AllSegments(p)
    ensures Segments(Join(p)) == p && Normalized(Join(p))
  {
    if p != [] {
      JoinHead(p);
      SegmentsOfJoin(p[1..]);
    }
  }

  lemma {:induction false} JoinInit(p: Pattern)
    requires |p| > 1
    ensures Join(p) == Join(Init(p)) + "/" + Last(p)
  {
    if |p| == 2 {
      assert p[1..] == [p[1]];
    } else {
      JoinInit(p[1..]);
      assert Init(p)[1..] == Init(p[1..]);
    }
  }

  /** The last segment of a joined path, and what precedes it. */
  lemma JoinLast(p: Pattern)
    requires p != [] && AllSegments(p)
    ensures HeadAndTailSegment(Join(p)) == (Join(Init(p)), Last(p))
    ensures Join(Init(p)) == "" <==> |p| == 1
  {
    var last := Last(p);
    assert IsSegment(last);
    if |p| == 1 {
      assert Init(p) == [];
      LastSlash("", last);
    } else {
      JoinInit(p);
      JoinHead(Init(p));
      LastSlash(Join(Init(p)), last);
    }
  }

  lemma LastSlash(head: string, last: string)
    requires '/' !in last
    ensures FindLastSlash(last) == -1
    ensures FindLastSlash(head + "/" + last) == |head|
    ensures HeadAndTailSegment(head + "/" + last) == (head, last)
  {
    var path, slash := head + "/" + last, "/";
    assert path[|head|] == slash[0];
    forall i | |head| < i < |path|
      ensures path[i] != '/'
    {
      assert path[i] == last[i - |head| - 1] && last[i - |head| - 1] in last;
    }
    assert path[..|head|] == head && path[|head| + 1..] == last;
  }

  lemma {:induction false} JoinSplit(p: Pattern, n: nat)
    requires 0 < n < |p|
    ensures Join(p) == Join(p[..n]) + "/" + Join(p[n..])
  {
    if n == 1 {
      assert p[..1] == [p[0]];
    } else {
      JoinSplit(p[1..], n - 1);
      assert p[1..][..n - 1] == p[..n][1..] && p[1..][n - 1..] == p[n..];
    }
  }

  /** The slash that ends the `n`-th segment, searched from inside that segment. */
  lemma SegmentEnd(p: Pattern, n: nat, from: nat)
    requires 0 < n <= |p| && AllSegments(p)
    requires if n == 1 then from <= 1 else from == |Join(p[..n - 1])| + 1
    ensures from <= |Join(p[..n])| <= |Join(p)| && FindSlash(Join(p), from) == |Join(p[..n])|
    ensures Join(p)[..|Join(p[..n])|] == Join(p[..n])
    ensures n > 1 ==> from < |Join(p[..n])|
  {
    hide Join;
    var whole, head := Join(p), Join(p[..n]);
    JoinStarts(p, n);
    var segment := p[n - 1];
    JoinEnds(p, n);
    assert IsSegment(segment);
    var start := |head| - |segment|;
    forall i | start <= i < |head|
      ensures whole[i] != '/'
    {
      assert whole[i] == head[i] == segment[i - start] && segment[i - start] in segment;
    }
  }

  lemma JoinStarts(p: Pattern, n: nat)
    requires 0 < n <= |p|
    ensures Join(p[..n]) <= Join(p)
    ensures n < |p| ==> |Join(p[..n])| < |Join(p)| && Join(p)[|Join(p[..n])|] == '/'
    ensures n == |p| ==> Join(p[..n]) == Join(p)
  {
    hide Join;
    if n < |p| {
      JoinSplit(p, n);
    } else {
      assert p[..n] == p;
    }
  }

  lemma JoinEnds(p: Pattern, n: nat)
    requires 0 < n <= |p|
    ensures |p[n - 1]| <= |Join(p[..n])| && Join(p[..n])[|Join(p[..n])| - |p[n - 1]|..] == p[n - 1]
    ensures |Join(p[..n])| == |p[n - 1]| + if n == 1 then 0 else |Join(p[..n - 1])| + 1
  {
    if n > 1 {
      hide Join;
      JoinInit(p[..n]);
      assert Init(p[..n]) == p[..n - 1];
    } else {
      assert p[..1] == [p[0]];
    }
  }

  /** One round of the search for a depth: the end of segment `n` from the end of the one before it. */
  lemma NextEnd(p: Pattern, n: nat, len: nat)
    requires 1 < |p| && 0 < n <= |p| && AllSegments(p)
    requires if n == 1 then len == 0 else len == |Join(p[..n - 1])|
    ensures len + 1 < |Join(p)| && FindSlash(Join(p), len + 1) == |Join(p[..n])| <= |Join(p)|
    ensures Join(p)[..|Join(p[..n])|] == Join(p[..n])
  {
    hide Join, FindSlash;
    SegmentEnd(p, n, len + 1);
    if n == 1 {
      SegmentEnd(p, 2, |Join(p[..1])| + 1);
    }
  }

  /** The first `depth - 1` segments of a normalized path. */
  method LimitPathByDepth(path: string, depth: nat) returns (limited: string)
    requires Normalized(path) && 1 <= depth <= |Segments(path)| + 1
    ensures limited == Join(Segments(path)[..depth - 1])
    ensures depth == |Segments(path)| + 1 ==> limited == path
  {
    hide Join, FindSlash, Segments, AllSegments;
    ghost var p := Segments(path);
    assert p[..|p|] == p;
    if depth == 1 {
      // The root
      NoSegments(p);
      return "";
    }
    if depth == 2 {
      // The first segment
      SegmentEnd(p, 1, 0);
      return path[..FindSlash(path, 0)];
    }
    var len, left := 0, depth;
    while left > 1
      invariant 1 <= left <= depth
      invariant if left == depth then len == 0
                else len == |Join(p[..depth - left])| <= |path| && path[..len] == Join(p[..depth - left])
    {
      NextEnd(p, depth - left + 1, len);
      len := FindSlash(path, len + 1);
      left := left - 1;
    }
    limited := path[..len];
  }

  lemma NoSegments(p: Pattern)
    ensures Join(p[..0]) == ""
    ensures p == [] ==> Join(p) == ""
  {
  }
}
