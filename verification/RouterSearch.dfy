/**
 The backtracking search over a set of patterns, and what it finds: of all nodes that match the
 beginning of a path the deepest, and of those the first in child order.
 */
module RouterSearch {
  import opened RouterPath

  /** The nodes of a tree and, for each, the order in which its parameter children are visited. */
  datatype Shape = Shape(dom: set<Pattern>, order: map<Pattern, seq<string>>)

  predicate NoDuplicates(ks: seq<string>) {
    forall i, j :: 0 <= i < j < |ks| ==> ks[i] != ks[j]
  }

  /** Every prefix of a node is a node, and the visiting order lists each parameter child once. */
  ghost predicate Valid(s: Shape) {
    && [] in s.dom && s.order.Keys == s.dom
    && (forall p | p in s.dom && p != [] :: Init(p) in s.dom)
    && (forall p | p in s.dom :: NoDuplicates(s.order[p]))
    && (forall p, k | p in s.dom && k in s.order[p] :: IsParamSegment(k) && p + [k] in s.dom)
    && (forall p | p in s.dom && p != [] && IsParamSegment(Last(p)) :: Last(p) in s.order[Init(p)])
  }

  /** The deepest node entered so far, and its depth counted from 1; depth 0 is none. */
  datatype Best = Best(depth: nat, node: Pattern)

  /** `FindCtx::entry` at the node `p` */
  function Enter(b: Best, p: Pattern): Best {
    if |p| + 1 > b.depth then Best(|p| + 1, p) else b
  }

  /** `findNode` at the node `p` with the segments `rest` still to match. */
  function Search(s: Shape, p: Pattern, rest: Pattern, b: Best): (bool, Best)
    decreases |rest|, 0
  {
    var b1 := Enter(b, p);
    if rest == [] then (true, b1)
    else
      var (found, b2) :=
        if !IsParamSegment(rest[0]) && p + [rest[0]] in s.dom
        then Search(s, p + [rest[0]], rest[1..], b1) else (false, b1);
      if found then (true, b2)
      else SearchParams(s, p, if p in s.order then s.order[p] else [], rest[1..], b2)
  }

  /** The loop over the parameter children. */
  function SearchParams(s: Shape, p: Pattern, ks: seq<string>, rest: Pattern, b: Best): (bool, Best)
    decreases |rest|, 1 + |ks|
  {
    if ks == [] then (false, b)
    else
      var (found, b1) := Search(s, p + [ks[0]], rest, b);
      if found then (true, b1) else SearchParams(s, p, ks[1..], rest, b1)
  }

  // ----- the reference: patterns against a path -----

  predicate SegmentMatches(pattern: string, segment: string) {
    IsParamSegment(pattern) || pattern == segment
  }

  /** The pattern matches the first segments of the path. */
  predicate Matches(q: Pattern, path: Pattern) {
    |q| <= |path| && forall i :: 0 <= i < |q| ==> SegmentMatches(q[i], path[i])
  }

  /** A fixed child comes before the parameter children, and those come in visiting order. */
  ghost predicate Precedes(s: Shape, p: Pattern, x: string, y: string)
    requires p in s.order
  {
    if IsParamSegment(x) && IsParamSegment(y)
    then exists i, j :: 0 <= i < j < |s.order[p]| && s.order[p][i] == x && s.order[p][j] == y
    else IsParamSegment(y) && x != y
  }

  ghost predicate BranchesAt(s: Shape, a: Pattern, b: Pattern, i: nat) {
    && i < |a| && i < |b| && a[..i] == b[..i] && a[..i] in s.order && Precedes(s, a[..i], a[i], b[i])
  }

  /** Where the two patterns first differ, `a` takes the earlier child. */
  ghost predicate Before(s: Shape, a: Pattern, b: Pattern) {
    exists i :: BranchesAt(s, a, b, i)
  }

  /** `q` is among the deepest matches and comes before the others. */
  ghost predicate IsBest(s: Shape, path: Pattern, q: Pattern) {
    && q in s.dom && Matches(q, path)
    && forall r | r in s.dom && Matches(r, path) :: |r| < |q| || r == q || (|r| == |q| && Before(s, q, r))
  }

  // ----- the search meets it -----

  /** The matching nodes at or under `p`. */
  ghost function Under(s: Shape, path: Pattern, p: Pattern): iset<Pattern> {
    iset q | q in s.dom && p <= q && Matches(q, path)
  }

  /** The matching nodes under one of the children `ks` of `p`. */
  ghost function UnderAny(s: Shape, path: Pattern, p: Pattern, ks: seq<string>): iset<Pattern> {
    iset q | q in s.dom && p < q && Matches(q, path) && q[|p|] in ks
  }

  /** The outcome `(found, b2)` of visiting a family of matching nodes, starting from `b`. */
  ghost predicate Visited(s: Shape, path: Pattern, family: iset<Pattern>, b: Best, found: bool, b2: Best) {
    && b.depth <= b2.depth <= |path| + 1
    && (b2.depth == b.depth ==> b2 == b)
    && (b2.depth > b.depth ==> b2.node in family && |b2.node| + 1 == b2.depth)
    && (forall q | q in family :: |q| + 1 <= b2.depth)
    && (forall q | q in family :: b2.depth > b.depth && |q| + 1 == b2.depth ==> q == b2.node || Before(s, b2.node, q))
    && (found <==> b2.depth == |path| + 1)
  }

  /** Visiting one family and then another, whose nodes all come later. */
  lemma VisitedTwice(s: Shape, path: Pattern, f: iset<Pattern>, g: iset<Pattern>, b: Best, b1: Best,
                     found: bool, b2: Best)
    requires Visited(s, path, f, b, false, b1) && Visited(s, path, g, b1, found, b2)
    requires forall x, y | x in f && y in g && |x| == |y| :: Before(s, x, y)
    ensures Visited(s, path, f + g, b, found, b2)
  {
  }

  lemma EnterVisits(s: Shape, path: Pattern, p: Pattern, b: Best)
    requires |p| <= |path| && b.depth <= |path|
    ensures Visited(s, path, iset{p}, b, |p| == |path|, Enter(b, p))
  {
  }

  lemma NothingVisited(s: Shape, path: Pattern, b: Best)
    requires b.depth <= |path|
    ensures Visited(s, path, iset{}, b, false, b)
  {
  }

  lemma ChildMatches(path: Pattern, p: Pattern, k: string)
    requires Matches(p, path) && |p| < |path| && SegmentMatches(k, path[|p|])
    ensures Matches(p + [k], path)
  {
  }

  /** Nodes under an earlier child come before nodes under a later one. */
  lemma BranchBefore(s: Shape, p: Pattern, x: Pattern, y: Pattern)
    requires p in s.order && p < x && p < y && Precedes(s, p, x[|p|], y[|p|])
    ensures Before(s, x, y)
  {
    assert x[..|p|] == p && y[..|p|] == p;
    assert BranchesAt(s, x, y, |p|);
  }

  lemma InitIn(s: Shape, p: Pattern)
    requires Valid(s) && p in s.dom && p != []
    ensures Init(p) in s.dom
  {
  }

  lemma ParamChild(s: Shape, p: Pattern, k: string)
    requires Valid(s) && p in s.dom
    ensures p in s.order && (k in s.order[p] <==> IsParamSegment(k) && p + [k] in s.dom)
    ensures NoDuplicates(s.order[p])
  {
    var c := p + [k];
    assert Init(c) == p && Last(c) == k;
  }

  /** The nodes are closed under prefixes. */
  lemma {:induction false} PrefixIn(s: Shape, q: Pattern, n: nat)
    requires Valid(s) && q in s.dom && n <= |q|
    ensures q[..n] in s.dom
    decreases |q|
  {
    hide Valid;
    if n == |q| {
      assert q[..n] == q;
    } else {
      InitIn(s, q);
      PrefixIn(s, Init(q), n);
      assert Init(q)[..n] == q[..n];
    }
  }

  /** The child of `p` on the way to `q`. */
  lemma NextNode(s: Shape, path: Pattern, p: Pattern, q: Pattern)
    requires Valid(s) && p in s.dom && q in s.dom && p < q && Matches(q, path)
    ensures |p| < |path| && SegmentMatches(q[|p|], path[|p|])
    ensures p + [q[|p|]] in s.dom && p + [q[|p|]] <= q
    ensures p in s.order && (IsParamSegment(q[|p|]) ==> q[|p|] in s.order[p])
  {
    hide Valid;
    PrefixIn(s, q, |p| + 1);
    assert q[..|p| + 1] == p + [q[|p|]];
    ParamChild(s, p, q[|p|]);
  }

  /** The fixed child that the search visits at `p`, if there is one. */
  ghost function UnderFixed(s: Shape, path: Pattern, p: Pattern): iset<Pattern>
    requires |p| < |path|
  {
    if !IsParamSegment(path[|p|]) && p + [path[|p|]] in s.dom then Under(s, path, p + [path[|p|]]) else iset{}
  }

  /** Every matching node under `p` but `p` itself lies under a child that the search visits. */
  lemma UnderSplits(s: Shape, path: Pattern, p: Pattern)
    requires Valid(s) && p in s.dom && p in s.order && Matches(p, path) && |p| < |path|
    ensures Under(s, path, p) == iset{p} + UnderFixed(s, path, p) + UnderAny(s, path, p, s.order[p])
  {
    hide Valid;
    forall q | q in Under(s, path, p) && q != p
      ensures q in UnderFixed(s, path, p) || q in UnderAny(s, path, p, s.order[p])
    {
      NextNode(s, path, p, q);
    }
    forall q | q in UnderFixed(s, path, p)
      ensures q in Under(s, path, p)
    {
      assert p <= p + [path[|p|]] <= q;
    }
  }

  /** Nodes under the fixed child come before nodes under the parameter children. */
  lemma FixedFirst(s: Shape, path: Pattern, p: Pattern, x: Pattern, y: Pattern)
    requires Valid(s) && p in s.dom && p in s.order && |p| < |path|
    requires x in iset{p} + UnderFixed(s, path, p) && y in UnderAny(s, path, p, s.order[p]) && |x| == |y|
    ensures Before(s, x, y)
  {
    ParamChild(s, p, y[|p|]);
    hide Valid;
    var c := p + [path[|p|]];
    assert c <= x;
    assert x[|p|] == c[|p|];
    assert p < x;
    BranchBefore(s, p, x, y);
  }

  /** Nodes under one parameter child come before nodes under the children listed after it. */
  lemma ListedFirst(s: Shape, path: Pattern, p: Pattern, ks: seq<string>, n: nat, x: Pattern, y: Pattern)
    requires Valid(s) && p in s.dom && p in s.order && ks == s.order[p] && n < |ks|
    requires x in Under(s, path, p + [ks[n]]) && y in UnderAny(s, path, p, ks[n + 1..])
    ensures Before(s, x, y)
  {
    ParamChild(s, p, ks[n]);
    ParamChild(s, p, y[|p|]);
    hide Valid;
    var c := p + [ks[n]];
    assert c <= x;
    assert x[|p|] == c[|p|];
    assert p < x;
    var j :| 0 <= j < |ks[n + 1..]| && ks[n + 1..][j] == y[|p|];
    assert ks[n + 1 + j] == y[|p|];
    BranchBefore(s, p, x, y);
  }

  /** The nodes under the first listed child, and those under the others. */
  lemma UnderAnySplits(s: Shape, path: Pattern, p: Pattern, ks: seq<string>, n: nat)
    requires n < |ks|
    ensures UnderAny(s, path, p, ks[n..]) == Under(s, path, p + [ks[n]]) + UnderAny(s, path, p, ks[n + 1..])
  {
    var c := p + [ks[n]];
    assert ks[n..] == [ks[n]] + ks[n + 1..];
    forall q | q in UnderAny(s, path, p, ks[n..])
      ensures q in Under(s, path, c) || q in UnderAny(s, path, p, ks[n + 1..])
    {
      if q[|p|] == ks[n] {
        assert c <= q;
      }
    }
    forall q | q in Under(s, path, c)
      ensures q in UnderAny(s, path, p, ks[n..])
    {
      assert p < c <= q;
      assert q[|p|] == c[|p|];
    }
  }

  lemma {:induction false} SearchVisits(s: Shape, path: Pattern, p: Pattern, b: Best)
    requires Valid(s) && p in s.dom && Matches(p, path) && b.depth <= |path|
    ensures var r := Search(s, p, path[|p|..], b); Visited(s, path, Under(s, path, p), b, r.0, r.1)
    decreases |path| - |p|, 1, 0
  {
    hide Visited, Valid, Under, UnderAny, UnderFixed, Matches, Before;
    MatchesLength(p, path);
    var rest, b1 := path[|p|..], Enter(b, p);
    EnterVisits(s, path, p, b);
    if rest == [] {
      UnderLeaf(s, path, p);
    } else {
      var seg, tail := rest[0], rest[1..];
      assert tail == path[|p| + 1..];
      ParamChild(s, p, seg);
      EnterDepth(s, path, p, b);
      var r := (false, b1);
      if !IsParamSegment(seg) && p + [seg] in s.dom {
        ChildMatches(path, p, seg);
        SearchVisits(s, path, p + [seg], b1);
        r := Search(s, p + [seg], tail, b1);
      } else {
        NothingVisited(s, path, b1);
      }
      assert Visited(s, path, UnderFixed(s, path, p), b1, r.0, r.1) by { UnderFixedIs(s, path, p); }
      SelfThenFixed(s, path, p, b, b1, r.0, r.1);
      UnderSplits(s, path, p);
      if r.0 {
        ParamsLater(s, path, p, b, r.1);
      } else {
        var ks := s.order[p];
        NotFoundDepth(s, path, iset{p} + UnderFixed(s, path, p), b, r.1);
        SearchParamsVisits(s, path, p, ks, 0, r.1);
        assert ks[0..] == ks;
        var t := SearchParams(s, p, ks, tail, r.1);
        ThenParams(s, path, p, b, r.1, t.0, t.1);
      }
    }
  }

  lemma MatchesLength(p: Pattern, path: Pattern)
    requires Matches(p, path)
    ensures |p| <= |path|
  {
  }

  lemma UnderLeaf(s: Shape, path: Pattern, p: Pattern)
    requires p in s.dom && Matches(p, path) && |p| == |path|
    ensures Under(s, path, p) == iset{p}
  {
    forall q | q in Under(s, path, p)
      ensures q == p
    {
      assert q[..|p|] == p;
    }
  }

  lemma UnderFixedIs(s: Shape, path: Pattern, p: Pattern)
    requires |p| < |path|
    ensures UnderFixed(s, path, p) ==
            if !IsParamSegment(path[|p|]) && p + [path[|p|]] in s.dom then Under(s, path, p + [path[|p|]]) else iset{}
  {
  }

  lemma SelfThenFixed(s: Shape, path: Pattern, p: Pattern, b: Best, b1: Best, found: bool, b2: Best)
    requires |p| < |path|
    requires Visited(s, path, iset{p}, b, false, b1) && Visited(s, path, UnderFixed(s, path, p), b1, found, b2)
    ensures Visited(s, path, iset{p} + UnderFixed(s, path, p), b, found, b2)
  {
    assert forall y | y in UnderFixed(s, path, p) :: |y| > |p|;
    VisitedTwice(s, path, iset{p}, UnderFixed(s, path, p), b, b1, found, b2);
  }

  lemma ThenParams(s: Shape, path: Pattern, p: Pattern, b: Best, b1: Best, found: bool, b2: Best)
    requires Valid(s) && p in s.dom && p in s.order && |p| < |path|
    requires Visited(s, path, iset{p} + UnderFixed(s, path, p), b, false, b1)
    requires Visited(s, path, UnderAny(s, path, p, s.order[p]), b1, found, b2)
    ensures Visited(s, path, iset{p} + UnderFixed(s, path, p) + UnderAny(s, path, p, s.order[p]), b, found, b2)
  {
    hide Valid, Before, UnderAny, UnderFixed;
    forall x, y | x in iset{p} + UnderFixed(s, path, p) && y in UnderAny(s, path, p, s.order[p]) && |x| == |y|
      ensures Before(s, x, y)
    {
      FixedFirst(s, path, p, x, y);
    }
    VisitedTwice(s, path, iset{p} + UnderFixed(s, path, p), UnderAny(s, path, p, s.order[p]), b, b1, found, b2);
  }

  /** After a find the parameter children need no visit: they come later. */
  lemma ParamsLater(s: Shape, path: Pattern, p: Pattern, b: Best, b1: Best)
    requires Valid(s) && p in s.dom && p in s.order && |p| < |path| && b.depth <= |path|
    requires Visited(s, path, iset{p} + UnderFixed(s, path, p), b, true, b1)
    ensures Visited(s, path, iset{p} + UnderFixed(s, path, p) + UnderAny(s, path, p, s.order[p]), b, true, b1)
  {
    hide Valid, Before, UnderFixed;
    forall x, y | x in iset{p} + UnderFixed(s, path, p) && y in UnderAny(s, path, p, s.order[p]) && |x| == |y|
      ensures Before(s, x, y)
    {
      FixedFirst(s, path, p, x, y);
    }
    FoundAlready(s, path, iset{p} + UnderFixed(s, path, p), UnderAny(s, path, p, s.order[p]), b, b1);
  }

  lemma EnterDepth(s: Shape, path: Pattern, p: Pattern, b: Best)
    requires |p| < |path| && b.depth <= |path|
    ensures Enter(b, p).depth <= |path|
  {
  }

  lemma NotFoundDepth(s: Shape, path: Pattern, f: iset<Pattern>, b: Best, b2: Best)
    requires Visited(s, path, f, b, false, b2)
    ensures b2.depth <= |path|
  {
  }

  lemma FoundAlready(s: Shape, path: Pattern, f: iset<Pattern>, g: iset<Pattern>, b: Best, b2: Best)
    requires Visited(s, path, f, b, true, b2) && b.depth <= |path|
    requires forall y | y in g :: |y| <= |path|
    requires forall x, y | x in f && y in g && |x| == |y| :: Before(s, x, y)
    ensures Visited(s, path, f + g, b, true, b2)
  {
  }

  lemma {:induction false} SearchParamsVisits(s: Shape, path: Pattern, p: Pattern, ks: seq<string>, n: nat, b: Best)
    requires Valid(s) && p in s.dom && p in s.order && Matches(p, path) && |p| < |path| && b.depth <= |path|
    requires ks == s.order[p] && n <= |ks|
    ensures var r := SearchParams(s, p, ks[n..], path[|p| + 1..], b);
            Visited(s, path, UnderAny(s, path, p, ks[n..]), b, r.0, r.1)
    decreases |path| - |p|, 0, |ks| - n
  {
    hide Visited, Valid, Under, UnderAny, UnderFixed, Matches, Before;
    if n == |ks| {
      NothingVisited(s, path, b);
      assert UnderAny(s, path, p, ks[n..]) == iset{} by { UnderNone(s, path, p); }
    } else {
      var k, tail := ks[n], path[|p| + 1..];
      ParamChild(s, p, k);
      ChildMatches(path, p, k);
      SearchVisits(s, path, p + [k], b);
      UnderAnySplits(s, path, p, ks, n);
      assert ks[n..][0] == k && ks[n..][1..] == ks[n + 1..];
      var r := Search(s, p + [k], tail, b);
      forall x, y | x in Under(s, path, p + [k]) && y in UnderAny(s, path, p, ks[n + 1..]) && |x| == |y|
        ensures Before(s, x, y)
      {
        ListedFirst(s, path, p, ks, n, x, y);
      }
      if r.0 {
        UnderAnyShort(s, path, p, ks[n + 1..]);
        FoundAlready(s, path, Under(s, path, p + [k]), UnderAny(s, path, p, ks[n + 1..]), b, r.1);
      } else {
        NotFoundDepth(s, path, Under(s, path, p + [k]), b, r.1);
        SearchParamsVisits(s, path, p, ks, n + 1, r.1);
        var t := SearchParams(s, p, ks[n + 1..], tail, r.1);
        VisitedTwice(s, path, Under(s, path, p + [k]), UnderAny(s, path, p, ks[n + 1..]), b, r.1, t.0, t.1);
      }
    }
  }

  lemma UnderNone(s: Shape, path: Pattern, p: Pattern)
    ensures UnderAny(s, path, p, []) == iset{}
  {
  }

  lemma UnderAnyShort(s: Shape, path: Pattern, p: Pattern, ks: seq<string>)
    ensures forall y | y in UnderAny(s, path, p, ks) :: |y| <= |path|
  {
  }

  const NO_NODE: Best := Best(0, [])

  /**
   The search finds a node exactly when a node matches the whole path, and in any case ends at the
   deepest match, taking the fixed child before parameter children wherever both lead as deep.
   */
  lemma SearchFindsBest(s: Shape, path: Pattern)
    requires Valid(s)
    ensures var (found, b) := Search(s, [], path, NO_NODE);
            && IsBest(s, path, b.node) && b.depth == |b.node| + 1
            && (found <==> |b.node| == |path|)
            && (found <==> exists q :: q in s.dom && |q| == |path| && Matches(q, path))
  {
    assert [] in s.dom;
    hide Valid;
    SearchVisits(s, path, [], NO_NODE);
    assert path[0..] == path;
    var r := Search(s, [], path, NO_NODE);
    assert [] in Under(s, path, []);
    forall q | q in s.dom && Matches(q, path)
      ensures q in Under(s, path, [])
    {
      assert [] <= q;
    }
  }

  /** The node where the search for a path ends. */
  ghost function BestNode(s: Shape, path: Pattern): (q: Pattern)
    requires Valid(s)
    ensures IsBest(s, path, q)
  {
    SearchFindsBest(s, path);
    Search(s, [], path, NO_NODE).1.node
  }

  lemma FirstDifference(s: Shape, a: Pattern, b: Pattern, i: nat)
    requires forall p | p in s.order :: NoDuplicates(s.order[p])
    requires BranchesAt(s, a, b, i)
    ensures a[i] != b[i] && (forall j :: 0 <= j < i ==> a[j] == b[j])
    ensures !BranchesAt(s, b, a, i)
  {
    assert NoDuplicates(s.order[a[..i]]);
    forall j | 0 <= j < i
      ensures a[j] == b[j]
    {
      assert a[..i][j] == b[..i][j];
    }
  }

  lemma BeforeAsymmetric(s: Shape, a: Pattern, b: Pattern)
    requires forall p | p in s.order :: NoDuplicates(s.order[p])
    requires Before(s, a, b)
    ensures a != b && !Before(s, b, a)
  {
    hide BranchesAt;
    var i: nat :| BranchesAt(s, a, b, i);
    FirstDifference(s, a, b, i);
    forall j: nat
      ensures !BranchesAt(s, b, a, j)
    {
      SameBranch(s, a, b, i, j);
    }
  }

  lemma SameBranch(s: Shape, a: Pattern, b: Pattern, i: nat, j: nat)
    requires forall p | p in s.order :: NoDuplicates(s.order[p])
    requires BranchesAt(s, a, b, i)
    ensures !BranchesAt(s, b, a, j)
  {
    FirstDifference(s, a, b, i);
    if i == j {
    } else if BranchesAt(s, b, a, j) {
      FirstDifference(s, b, a, j);
    }
  }

  /** The table and the visiting order alone determine the node: every search of a path ends at the same one. */
  lemma BestUnique(s: Shape, path: Pattern, a: Pattern, b: Pattern)
    requires Valid(s) && IsBest(s, path, a) && IsBest(s, path, b)
    ensures a == b
  {
    assert forall p | p in s.order :: NoDuplicates(s.order[p]);
    hide Valid, Before, Matches;
    if a != b {
      BeforeAsymmetric(s, a, b);
    }
  }
}
