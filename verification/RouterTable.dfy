/**
 The router as a plain table from patterns to entries: what registration, mounting and routing do to
 and read from it.
 */
module RouterTable {
  import opened RouterPath
  import opened RouterSearch
  import opened Wrappers

  // Handlers and middlewares are opaque to the router; a number tells them apart.
  datatype Handler = Handler(id: nat)
  datatype ExceptionHandler = ExceptionHandler(id: nat)
  datatype Middleware = Middleware(id: nat)

  /** What a node holds besides its place in the tree. */
  datatype Entry = Entry(
    methodHandlers: map<string, Handler>,
    notFoundHandler: Option<Handler>,
    methodNotAllowedHandler: Option<Handler>,
    exceptionHandler: Option<ExceptionHandler>,
    middlewares: seq<Middleware>)

  const EMPTY: Entry := Entry(map[], None, None, None, [])

  type Table = map<Pattern, Entry>

  ghost predicate Rooted(t: Table) {
    [] in t && forall p | p in t && p != [] :: Init(p) in t
  }

  // ----- registration -----

  /** The proper and improper prefixes of `p ++ tail` that are at least as long as `p`. */
  function Stems(p: Pattern, tail: Pattern): set<Pattern>
    decreases |tail|
  {
    if tail == [] then {p} else {p} + Stems(p + [tail[0]], tail[1..])
  }

  /** Creating a node creates empty ancestors and leaves every existing entry alone. */
  function Created(t: Table, nodes: set<Pattern>): Table {
    map p | p in t.Keys + nodes :: if p in t then t[p] else EMPTY
  }

  function AddRoute(t: Table, resource: Pattern, verb: string, handler: Handler): Table
  {
    var t1 := Created(t, Stems([], resource));
    var e := if resource in t1 then t1[resource] else EMPTY;
    t1[resource := e.(methodHandlers := e.methodHandlers[verb := handler])]
  }

  lemma {:induction false} StemsAre(p: Pattern, tail: Pattern)
    ensures forall q :: q in Stems(p, tail) <==> p <= q <= p + tail
    decreases |tail|
  {
    if tail == [] {
      assert p + tail == p;
      forall q
        ensures q in Stems(p, tail) <==> p <= q <= p + tail
      {
        if p <= q <= p {
          assert q == p;
        }
      }
    } else {
      var c := p + [tail[0]];
      StemsAre(c, tail[1..]);
      assert c + tail[1..] == p + tail;
      forall q
        ensures q in Stems(p, tail) <==> p <= q <= p + tail
      {
        if p <= q <= p + tail && q != p {
          assert q[|p|] == (p + tail)[|p|];
          assert c <= q;
        }
        if c <= q {
          assert p <= c <= q;
        }
      }
    }
  }

  datatype Route = Route(resource: Pattern, verb: string, handler: Handler)

  function AddRoutes(t: Table, routes: seq<Route>): Table {
    if routes == [] then t
    else
      var r := routes[|routes| - 1];
      AddRoute(AddRoutes(t, routes[..|routes| - 1]), r.resource, r.verb, r.handler)
  }

  lemma AddRouteKeys(t: Table, r: Route)
    ensures forall q :: q in AddRoute(t, r.resource, r.verb, r.handler) <==> q in t || q <= r.resource
  {
    StemsAre([], r.resource);
    assert [] + r.resource == r.resource;
    assert r.resource in Stems([], r.resource);
  }

  /** After any registrations the nodes are exactly the root and the prefixes of the registered resources. */
  lemma {:induction false} NodesAreStems(routes: seq<Route>)
    ensures forall q :: q in AddRoutes(map[[] := EMPTY], routes) <==>
              q == [] || exists i :: 0 <= i < |routes| && q <= routes[i].resource
  {
    hide AddRoute;
    if routes != [] {
      var n := |routes| - 1;
      NodesAreStems(routes[..n]);
      AddRouteKeys(AddRoutes(map[[] := EMPTY], routes[..n]), routes[n]);
      assert forall i | 0 <= i < n :: routes[..n][i] == routes[i];
    }
  }

  function Handled(t: Table, p: Pattern, verb: string): Option<Handler> {
    if p in t && verb in t[p].methodHandlers then Some(t[p].methodHandlers[verb]) else None
  }

  lemma RouteHandled(t: Table, r: Route, p: Pattern, verb: string)
    ensures Handled(AddRoute(t, r.resource, r.verb, r.handler), p, verb) ==
            if r.resource == p && r.verb == verb then Some(r.handler) else Handled(t, p, verb)
  {
  }

  ghost predicate Registers(routes: seq<Route>, p: Pattern, verb: string, i: nat) {
    i < |routes| && routes[i].resource == p && routes[i].verb == verb
  }

  /** A registration changes the methods of one node, and adds nodes that are empty; nothing else. */
  lemma AddRouteKeeps(t: Table, r: Route, q: Pattern)
    requires q in AddRoute(t, r.resource, r.verb, r.handler)
    ensures var e := AddRoute(t, r.resource, r.verb, r.handler)[q];
            var e0 := if q in t then t[q] else EMPTY;
            e == if q == r.resource then e0.(methodHandlers := e0.methodHandlers[r.verb := r.handler]) else e0
  {
  }

  /** A method is handled at a node exactly when it was registered there, and by what was registered last. */
  lemma {:induction false} LastRegistrationWins(routes: seq<Route>, p: Pattern, verb: string)
    ensures var handled := Handled(AddRoutes(map[[] := EMPTY], routes), p, verb);
            && (handled.Some? <==> exists i: nat :: Registers(routes, p, verb, i))
            && forall i: nat |
                 Registers(routes, p, verb, i) && (forall j | i < j < |routes| :: !Registers(routes, p, verb, j)) ::
                 handled == Some(routes[i].handler)
  {
    if routes != [] {
      var n, before := |routes| - 1, routes[..|routes| - 1];
      LastRegistrationWins(before, p, verb);
      RouteHandled(AddRoutes(map[[] := EMPTY], before), routes[n], p, verb);
      hide AddRoute, Handled;
      assert forall i: nat | i < n :: Registers(routes, p, verb, i) <==> Registers(before, p, verb, i);
      if Registers(routes, p, verb, n) {
      } else if i: nat :| Registers(routes, p, verb, i) {
        assert Registers(before, p, verb, i);
      }
    }
  }

  // ----- mounting -----

  /**
   A mount under way: the entries of `done` have landed in `t`, each at its spot, and made `r` of it.
   Of several entries that land at one spot one is left, whichever was visited last.
   */
  ghost predicate Landed(t: Table, prefix: string, sub: Table, done: set<Pattern>, r: Table) {
    && (forall p :: p in r <==> p in t || OnWay(prefix, done, p))
    && (forall p | p in r ::
          if Taken(prefix, done, p) then Carries(prefix, sub, done, p, r[p])
          else r[p] == if p in t then t[p] else EMPTY)
  }

  ghost predicate OnWay(prefix: string, done: set<Pattern>, p: Pattern) {
    exists k | k in done :: p <= Spot(prefix, k)
  }

  ghost predicate Taken(prefix: string, done: set<Pattern>, p: Pattern) {
    exists k | k in done :: p == Spot(prefix, k)
  }

  ghost predicate Carries(prefix: string, sub: Table, done: set<Pattern>, p: Pattern, e: Entry) {
    exists k | k in done && k in sub :: p == Spot(prefix, k) && e == sub[k]
  }

  lemma LandedNone(t: Table, prefix: string, sub: Table)
    ensures Landed(t, prefix, sub, {}, t)
  {
  }

  /** One more entry lands: its node is found or created, and filled. */
  lemma LandStep(t: Table, prefix: string, sub: Table, done: set<Pattern>, r: Table, k: Pattern)
    requires Landed(t, prefix, sub, done, r) && k in sub
    ensures var q := Spot(prefix, k);
            Landed(t, prefix, sub, done + {k}, Created(r, Stems([], q))[q := sub[k]])
  {
    hide Stems, Spot, OnWay, Taken, Carries;
    var q := Spot(prefix, k);
    var r2 := Created(r, Stems([], q))[q := sub[k]];
    StemsAre([], q);
    assert [] + q == q;
    JustLanded(prefix, sub, done + {k}, k);
    forall p
      ensures p in r2 <==> p in t || OnWay(prefix, done + {k}, p)
      ensures p in r2 ==>
                if Taken(prefix, done + {k}, p) then Carries(prefix, sub, done + {k}, p, r2[p])
                else r2[p] == if p in t then t[p] else EMPTY
    {
      OneMoreLands(prefix, sub, done, k, p, if p in r then r[p] else EMPTY);
      if p !in r {
        NotOnWay(prefix, done, p);
      }
    }
  }

  lemma NotOnWay(prefix: string, done: set<Pattern>, p: Pattern)
    ensures Taken(prefix, done, p) ==> OnWay(prefix, done, p)
  {
  }

  lemma JustLanded(prefix: string, sub: Table, done: set<Pattern>, k: Pattern)
    requires k in done && k in sub
    ensures Carries(prefix, sub, done, Spot(prefix, k), sub[k])
  {
  }

  lemma OneMoreLands(prefix: string, sub: Table, done: set<Pattern>, k: Pattern, p: Pattern, e: Entry)
    ensures OnWay(prefix, done + {k}, p) <==> OnWay(prefix, done, p) || p <= Spot(prefix, k)
    ensures Taken(prefix, done + {k}, p) <==> Taken(prefix, done, p) || p == Spot(prefix, k)
    ensures Carries(prefix, sub, done, p, e) ==> Carries(prefix, sub, done + {k}, p, e)
  {
    hide Spot;
    var more := done + {k};
    assert k in more && forall x :: x in done ==> x in more;
  }

  /** No two entries land at one spot. */
  ghost predicate Apart(prefix: string, sub: Table) {
    forall k, k' | k in sub && k' in sub :: Spot(prefix, k) == Spot(prefix, k') ==> k == k'
  }

  /** The order of the visit shows at most where two entries land at one spot. */
  lemma LandedOnce(t: Table, prefix: string, sub: Table, r: Table, r2: Table)
    requires Landed(t, prefix, sub, sub.Keys, r) && Landed(t, prefix, sub, sub.Keys, r2) && Apart(prefix, sub)
    ensures r == r2
  {
    hide Spot;
    forall p | p in r
      ensures p in r2 && r[p] == r2[p]
    {
      if Taken(prefix, sub.Keys, p) {
        var k :| k in sub.Keys && p == Spot(prefix, k);
        assert r[p] == sub[k] && r2[p] == sub[k];
      }
    }
  }

  /** `k` takes back none of the prefix, and no dot is in it. */
  predicate Under(prefix: string, k: Pattern) {
    k == [] || Clean(Names(prefix) + k, prefix == "" || IsAbsolute(prefix))
  }

  /** Every entry stays under the prefix. */
  ghost predicate AllUnder(prefix: string, sub: Table) {
    forall k | k in sub :: Under(prefix, k)
  }

  /** A mount whose entries stay under the prefix puts each at `prefix ++ k`. */
  lemma LandedIsMount(t: Table, prefix: string, sub: Table, r: Table)
    requires Landed(t, prefix, sub, sub.Keys, r) && AllUnder(prefix, sub) && Rooted(sub)
    ensures r == Mount(t, Names(prefix), sub)
  {
    hide Spot, Clean, Names, Stems;
    var under := Names(prefix);
    StemsAre([], under);
    assert [] + under == under;
    forall k | k in sub
      ensures Spot(prefix, k) == under + k
    {
      SpotUnder(prefix, k);
    }
    assert under + [] == under;
    forall p
      ensures p in r <==> p in Mount(t, under, sub)
      ensures p in r ==> r[p] == Mount(t, under, sub)[p]
    {
      LandedAt(t, prefix, sub, r, p);
    }
  }

  lemma LandedAt(t: Table, prefix: string, sub: Table, r: Table, p: Pattern)
    requires Landed(t, prefix, sub, sub.Keys, r) && Rooted(sub)
    requires forall k | k in sub :: Spot(prefix, k) == Names(prefix) + k
    ensures p in r <==> p in t || p in Stems([], Names(prefix)) || exists k :: k in sub && p == Names(prefix) + k
    ensures p in r ==> r[p] == MountedAt(t, Names(prefix), sub, p)
  {
    hide Spot, Names, Stems;
    var under := Names(prefix);
    WayUnder(prefix, sub, p);
    assert under <= p ==> p == under + p[|under|..];
    if p in r && Taken(prefix, sub.Keys, p) {
      var k :| k in sub.Keys && k in sub && p == Spot(prefix, k) && r[p] == sub[k];
      assert (under + k)[|under|..] == k;
    }
  }

  /** The way to what is mounted, and what is mounted. */
  lemma WayUnder(prefix: string, sub: Table, p: Pattern)
    requires Rooted(sub) && forall k | k in sub :: Spot(prefix, k) == Names(prefix) + k
    ensures OnWay(prefix, sub.Keys, p) <==>
            p in Stems([], Names(prefix)) || exists k :: k in sub && p == Names(prefix) + k
  {
    hide Spot, Names, Stems;
    var under := Names(prefix);
    StemsAre([], under);
    assert [] + under == under && [] <= p;
    if k :| k in sub && p <= Spot(prefix, k) {
      if |p| <= |under| {
        assert p == (under + k)[..|p|] == under[..|p|];
      } else {
        var n := |p| - |under|;
        ClosedPrefix(sub.Keys, k, n);
        assert p == (under + k)[..|p|] == under + k[..n];
      }
    }
    if p <= under {
      assert p <= under + [] == Spot(prefix, []);
    }
  }

  /**
   Where nothing is registered below the prefix yet, a mount puts every entry at `prefix ++ k`, and nothing
   elsewhere, exactly if all its entries stay under the prefix.
   */
  lemma MountIff(t: Table, prefix: string, sub: Table, r: Table)
    requires Landed(t, prefix, sub, sub.Keys, r) && Rooted(sub) && forall p | p in t :: !(Names(prefix) < p)
    ensures r == Mount(t, Names(prefix), sub) <==> AllUnder(prefix, sub)
  {
    hide Spot, Under, Names, Landed;
    if AllUnder(prefix, sub) {
      LandedIsMount(t, prefix, sub, r);
    } else {
      var k :| k in sub && !Under(prefix, k);
      k := LongestAstray(prefix, sub, k);
      AstrayMissing(t, prefix, sub, r, k);
      MountOverrides(t, Names(prefix), sub);
    }
  }

  ghost function Longer(sub: Table, k: Pattern): set<Pattern> {
    set x | x in sub && |x| > |k|
  }

  lemma LongestAstray(prefix: string, sub: Table, k: Pattern) returns (longest: Pattern)
    requires k in sub && !Under(prefix, k)
    ensures longest in sub && !Under(prefix, longest)
    ensures forall x | x in sub && |x| > |longest| :: Under(prefix, x)
    decreases Longer(sub, k)
  {
    hide Under;
    if x :| x in sub && |x| > |k| && !Under(prefix, x) {
      assert x in Longer(sub, k) && x !in Longer(sub, x);
      longest := LongestAstray(prefix, sub, x);
    } else {
      longest := k;
    }
  }

  /** The deepest entry that goes astray leaves its place under the prefix empty. */
  lemma AstrayMissing(t: Table, prefix: string, sub: Table, r: Table, k: Pattern)
    requires Landed(t, prefix, sub, sub.Keys, r) && k in sub && !Under(prefix, k)
    requires forall x | x in sub && |x| > |k| :: Under(prefix, x)
    requires forall p | p in t :: !(Names(prefix) < p)
    ensures Names(prefix) + k !in r
  {
    hide Spot, Names, Under;
    var at := Names(prefix) + k;
    NotUnder(prefix, k);
    assert Names(prefix) < at;
    if x :| x in sub && at <= Spot(prefix, x) {
      SpotHigher(prefix, x);
      UnderShorter(prefix, x, k);
    }
  }

  lemma NotUnder(prefix: string, k: Pattern)
    requires !Under(prefix, k)
    ensures k != [] && Spot(prefix, k) != Names(prefix) + k
  {
    SpotUnder(prefix, k);
  }

  lemma UnderShorter(prefix: string, x: Pattern, k: Pattern)
    requires !Under(prefix, k) && Names(prefix) + k <= Spot(prefix, x)
    ensures !Under(prefix, x) && Spot(prefix, x) != Names(prefix) + x
  {
    hide Spot, Names, Clean;
    SpotUnder(prefix, x);
    if Under(prefix, x) {
      var under := Names(prefix);
      assert under + k == (under + x)[..|under + k|];
      CleanPrefix(under + x, |under + k|, prefix == "" || IsAbsolute(prefix));
    }
  }

  /** What does not stay under its prefix: a route of the mounted router that climbs above its own root. */
  lemma MountEscapes(t: Table, handler: Handler, r: Table)
    requires var sub := AddRoute(map[[] := EMPTY], Names("../b"), "GET", handler);
             Landed(t, "a", sub, sub.Keys, r)
    ensures Handled(r, ["b"], "GET") == Some(handler)
    ensures Names("a") + Names("../b") in r ==> Names("a") + Names("../b") in t
  {
    hide Spot, Names, Stems, AddRoute, Handled;
    var k, at := ["..", "b"], ["b"];
    ClimbingNames();
    var sub := AddRoute(map[[] := EMPTY], k, "GET", handler);
    AddRouteKeys(map[[] := EMPTY], Route(k, "GET", handler));
    RouteHandled(map[[] := EMPTY], Route(k, "GET", handler), k, "GET");
    forall x | x in sub
      ensures x == [] || x == [".."] || x == k
    {
      assert x == k[..|x|];
    }
    assert k in sub && Taken("a", sub.Keys, at);
    assert r[at] == sub[k];
    SameEntry(r, at, sub, k, "GET");
  }

  lemma SameEntry(r: Table, p: Pattern, r2: Table, p2: Pattern, verb: string)
    requires p in r && p2 in r2 && r[p] == r2[p2]
    ensures Handled(r, p, verb) == Handled(r2, p2, verb)
  {
  }

  lemma ClimbingNames()
    ensures Names("../b") == ["..", "b"] && Names("a") == ["a"]
    ensures Spot("a", []) == ["a"] && Spot("a", [".."]) == ["."] && Spot("a", ["..", "b"]) == ["b"]
  {
    hide Listed, Resolve;
    var up, a, b := "..", "a", "b";
    NameAlone(up);
    NameAlone(a);
    NameAlone(b);
    ListedConcat(up, b);
    assert up + "/" + b == "../b" && [up] + [b] == [up, b];
    assert [a] + [] == [a] && [a] + [up] == [a, up] && [a] + [up, b] == [a, up, b];
    ResolveFew(up, b, b);
    ResolveFew(a, up, b);
  }

  lemma ResolveFew(x: string, y: string, z: string)
    ensures var one := Follow([], x, false);
            var two := Follow(one, y, false);
            && Resolve([x], false) == one && Resolve([x, y], false) == two
            && Resolve([x, y, z], false) == Follow(two, z, false)
  {
    hide Follow, Resolve;
    ResolveNone();
    ResolveNext([], x, false);
    ResolveNext([x], y, false);
    ResolveNext([x, y], z, false);
    assert [] + [x] == [x] && [x] + [y] == [x, y] && [x, y] + [z] == [x, y, z];
  }

  /** What a mount is for: the entries of `sub` override those at `prefix ++ k`; new nodes on the way are empty. */
  function Mount(t: Table, prefix: Pattern, sub: Table): Table {
    map p | p in t.Keys + Stems([], prefix) + (set k | k in sub :: prefix + k) :: MountedAt(t, prefix, sub, p)
  }

  function MountedAt(t: Table, prefix: Pattern, sub: Table, p: Pattern): Entry {
    if prefix <= p && p[|prefix|..] in sub then sub[p[|prefix|..]]
    else if p in t then t[p] else EMPTY
  }

  /** What a mount leaves at every pattern. */
  lemma MountOverrides(t: Table, prefix: Pattern, sub: Table)
    ensures var m := Mount(t, prefix, sub);
            && (forall k | k in sub :: prefix + k in m && m[prefix + k] == sub[k])
            && (forall p | p in t && !(prefix <= p && p[|prefix|..] in sub) :: p in m && m[p] == t[p])
            && (forall p | p in m && p !in t && !(prefix <= p && p[|prefix|..] in sub) :: m[p] == EMPTY && p <= prefix)
            && (Rooted(t) && Rooted(sub) ==> Rooted(m))
  {
    hide Stems, Rooted;
    var m := Mount(t, prefix, sub);
    StemsAre([], prefix);
    assert [] + prefix == prefix;
    forall k | k in sub
      ensures prefix + k in m && m[prefix + k] == sub[k]
    {
      assert (prefix + k)[|prefix|..] == k;
    }
    if Rooted(t) && Rooted(sub) {
      MountRooted(t, prefix, sub);
    }
  }

  lemma MountRooted(t: Table, prefix: Pattern, sub: Table)
    requires Rooted(t) && Rooted(sub)
    ensures Rooted(Mount(t, prefix, sub))
  {
    hide Stems, MountedAt;
    var m := Mount(t, prefix, sub);
    StemsAre([], prefix);
    assert [] + prefix == prefix;
    forall p | p in m && p != []
      ensures Init(p) in m
    {
      if k :| k in sub && p == prefix + k {
        if k == [] {
          assert [] <= Init(p) <= prefix;
        } else {
          assert Init(p) == prefix + Init(k);
        }
      } else if p in Stems([], prefix) {
        assert [] <= Init(p) <= prefix;
      }
    }
  }

  ghost predicate Closed(done: set<Pattern>) {
    forall k | k in done && k != [] :: Init(k) in done
  }

  lemma {:induction false} ClosedPrefix(done: set<Pattern>, k: Pattern, n: nat)
    requires Closed(done) && k in done && n <= |k|
    ensures k[..n] in done
    decreases |k|
  {
    if n == |k| {
      assert k[..n] == k;
    } else {
      ClosedPrefix(done, Init(k), n);
      assert Init(k)[..n] == k[..n];
    }
  }

  /** The patterns of a table at or under `k`, and those under some of its children. */
  ghost function Below(sub: Table, k: Pattern): set<Pattern> {
    set q | q in sub && k <= q
  }

  ghost function BelowSome(sub: Table, k: Pattern, children: set<string>): set<Pattern> {
    set q | q in sub && k < q && q[|k|] in children
  }

  lemma BelowOneMore(sub: Table, k: Pattern, children: set<string>, x: string)
    ensures BelowSome(sub, k, children + {x}) == BelowSome(sub, k, children) + Below(sub, k + [x])
  {
    forall q
      ensures k + [x] <= q <==> k < q && q[|k|] == x
    {
    }
  }

  lemma BelowAll(sub: Table, k: Pattern, children: set<string>)
    requires Rooted(sub) && k in sub && forall x | k + [x] in sub :: x in children
    ensures Below(sub, k) == {k} + BelowSome(sub, k, children)
  {
    forall q | q in sub && k < q
      ensures q[|k|] in children
    {
      ClosedPrefix(sub.Keys, q, |k| + 1);
      assert q[..|k| + 1] == k + [q[|k|]];
    }
    forall q | q in sub && k <= q
      ensures q == k || k < q
    {
      if |q| == |k| {
        assert q[..|k|] == q;
      }
    }
  }

  // ----- routing -----

  /** The middlewares of the chain of nodes from the root to `p`, in registration order. */
  function Chain(t: Table, p: Pattern): seq<Middleware>
    requires Rooted(t) && p in t
    decreases |p|
  {
    if p == [] then t[p].middlewares else Chain(t, Init(p)) + t[p].middlewares
  }

  /** How many middlewares the first `n` nodes on the way to `p` have. */
  function MiddlewaresBefore(t: Table, p: Pattern, n: nat): nat
    requires n <= |p| + 1 && forall m | 0 <= m <= |p| :: p[..m] in t
  {
    if n == 0 then 0 else MiddlewaresBefore(t, p, n - 1) + |t[p[..n - 1]].middlewares|
  }

  /** The chain is made of the lists of the nodes on the way, root first, each in its own order. */
  lemma {:induction false} ChainInOrder(t: Table, p: Pattern, n: nat)
    requires Rooted(t) && p in t && n <= |p|
    ensures forall m | 0 <= m <= |p| :: p[..m] in t
    ensures |Chain(t, p)| == MiddlewaresBefore(t, p, |p| + 1) >= MiddlewaresBefore(t, p, n + 1)
    ensures Chain(t, p)[MiddlewaresBefore(t, p, n)..MiddlewaresBefore(t, p, n + 1)] == t[p[..n]].middlewares
    decreases |p|
  {
    forall m | 0 <= m <= |p|
      ensures p[..m] in t
    {
      ClosedPrefix(t.Keys, p, m);
    }
    assert p[..|p|] == p;
    if p != [] {
      var q := Init(p);
      ChainInOrder(t, q, if n < |p| then n else 0);
      BeforeInit(t, p, |p|);
      BeforeInit(t, p, n);
      if n < |p| {
        BeforeInit(t, p, n + 1);
        assert q[..n] == p[..n];
      }
    }
  }

  lemma {:induction false} BeforeInit(t: Table, p: Pattern, n: nat)
    requires p != [] && n <= |p| && forall m | 0 <= m <= |p| :: p[..m] in t
    ensures forall m | 0 <= m < |p| :: Init(p)[..m] == p[..m] && Init(p)[..m] in t
    ensures MiddlewaresBefore(t, Init(p), n) == MiddlewaresBefore(t, p, n)
  {
    assert forall m | 0 <= m < |p| :: Init(p)[..m] == p[..m];
    if n > 0 {
      BeforeInit(t, p, n - 1);
    }
  }

  datatype Kind = NotFound | MethodNotAllowed

  function Own(e: Entry, kind: Kind): Option<Handler> {
    match kind
    case NotFound => e.notFoundHandler
    case MethodNotAllowed => e.methodNotAllowedHandler
  }

  /** The handler of the nearest node that has one, from `p` up to the root; None is the default handler. */
  function Nearest(t: Table, p: Pattern, kind: Kind): Option<Handler>
    requires Rooted(t) && p in t
    decreases |p|
  {
    if Own(t[p], kind).Some? then Own(t[p], kind)
    else if p == [] then None
    else Nearest(t, Init(p), kind)
  }

  function NearestException(t: Table, p: Pattern): Option<ExceptionHandler>
    requires Rooted(t) && p in t
    decreases |p|
  {
    if t[p].exceptionHandler.Some? then t[p].exceptionHandler
    else if p == [] then None
    else NearestException(t, Init(p))
  }

  /** `handler` is the handler of that kind on the deepest prefix of `p` that has one; without any it is the default. */
  ghost predicate DeepestHandler(t: Table, p: Pattern, kind: Kind, n: nat, handler: Option<Handler>) {
    && n <= |p| && (forall m | n <= m <= |p| :: p[..m] in t)
    && (forall m | n < m <= |p| ::
          if kind == NotFound then t[p[..m]].notFoundHandler == None else t[p[..m]].methodNotAllowedHandler == None)
    && handler == (if kind == NotFound then t[p[..n]].notFoundHandler else t[p[..n]].methodNotAllowedHandler)
    && (handler == None ==> n == 0)
  }

  /** The same for the exception handler. */
  ghost predicate DeepestException(t: Table, p: Pattern, n: nat, handler: Option<ExceptionHandler>) {
    && n <= |p| && (forall m | n <= m <= |p| :: p[..m] in t)
    && (forall m | n < m <= |p| :: t[p[..m]].exceptionHandler == None)
    && handler == t[p[..n]].exceptionHandler && (handler == None ==> n == 0)
  }

  lemma {:induction false} NearestExceptionIsDeepest(t: Table, p: Pattern) returns (n: nat)
    requires Rooted(t) && p in t
    ensures DeepestException(t, p, n, NearestException(t, p))
    decreases |p|
  {
    assert p[..|p|] == p;
    if t[p].exceptionHandler.Some? || p == [] {
      n := |p|;
    } else {
      n := NearestExceptionIsDeepest(t, Init(p));
      assert forall m | n <= m < |p| :: Init(p)[..m] == p[..m];
    }
  }

  /** `Nearest` names the deepest prefix of `p` with a handler of its own. */
  lemma {:induction false} NearestIsDeepest(t: Table, p: Pattern, kind: Kind) returns (n: nat)
    requires Rooted(t) && p in t
    ensures DeepestHandler(t, p, kind, n, Nearest(t, p, kind))
    decreases |p|
  {
    assert p[..|p|] == p;
    if Own(t[p], kind).Some? || p == [] {
      n := |p|;
    } else {
      n := NearestIsDeepest(t, Init(p), kind);
      assert forall m | n <= m < |p| :: Init(p)[..m] == p[..m];
    }
  }

  type Params = seq<(string, string)>

  /** The names of the parameter segments, root first, with the path segments in their places. */
  function ParamsOf(p: Pattern, segments: Pattern): Params
    requires |p| == |segments|
  {
    if p == [] then []
    else ParamsOf(Init(p), Init(segments))
         + (if IsParamSegment(Last(p)) then [(Last(p)[1..], Last(segments))] else [])
  }

  /** The pattern with its parameter segments replaced, in order, by the given values. */
  function Filled(p: Pattern, params: Params): Pattern
    requires |params| == ParamCount(p)
  {
    if p == [] then []
    else if IsParamSegment(Last(p)) then Filled(Init(p), params[..|params| - 1]) + [params[|params| - 1].1]
    else Filled(Init(p), params) + [Last(p)]
  }

  function ParamCount(p: Pattern): nat {
    if p == [] then 0 else ParamCount(Init(p)) + (if IsParamSegment(Last(p)) then 1 else 0)
  }

  function ParamNames(p: Pattern): seq<string> {
    if p == [] then []
    else ParamNames(Init(p)) + (if IsParamSegment(Last(p)) then [Last(p)[1..]] else [])
  }

  /** Extraction inverts matching: the values put back give the path, and the names are the pattern's. */
  lemma {:induction false} ExtractionInverts(p: Pattern, segments: Pattern)
    requires |p| == |segments| && Matches(p, segments)
    ensures |ParamsOf(p, segments)| == ParamCount(p) == |ParamNames(p)|
    ensures Filled(p, ParamsOf(p, segments)) == segments
    ensures forall i :: 0 <= i < ParamCount(p) ==> ParamsOf(p, segments)[i].0 == ParamNames(p)[i]
    decreases |p|
  {
    if p != [] {
      ExtractionInverts(Init(p), Init(segments));
      assert SegmentMatches(Last(p), Last(segments));
      assert Init(segments) + [Last(segments)] == segments;
      var params := ParamsOf(p, segments);
      if IsParamSegment(Last(p)) {
        assert params[..|params| - 1] == ParamsOf(Init(p), Init(segments));
      } else {
        assert params == ParamsOf(Init(p), Init(segments));
      }
    }
  }

  /** A segment that begins with a colon is a parameter, named by what follows; the others are not. */
  lemma {:induction false} ParamAt(p: Pattern, segments: Pattern, i: nat)
    requires |p| == |segments| && i < |p|
    ensures ParamCount(p[..i]) + (if p[i] != "" && p[i][0] == ':' then 1 else 0) == ParamCount(p[..i + 1])
    ensures ParamCount(p[..i + 1]) <= ParamCount(p) == |ParamsOf(p, segments)|
    ensures p[i] != "" && p[i][0] == ':' ==> ParamsOf(p, segments)[ParamCount(p[..i])] == (p[i][1..], segments[i])
    decreases |p|
  {
    assert p[..|p|] == p && Init(p[..i + 1]) == p[..i];
    if i < |p| - 1 {
      ParamAt(Init(p), Init(segments), i);
      assert Init(p)[..i] == p[..i] && Init(p)[..i + 1] == p[..i + 1];
    } else if i > 0 {
      ParamAt(Init(p), Init(segments), i - 1);
      assert Init(p)[..i] == Init(p) == p[..i];
    }
  }

  /** What `route` hands to a session. The default handlers are `None` handlers. */
  datatype RouteResult =
    | NotRouted(kind: Kind, handler: Option<Handler>)
    | Routed(methodHandler: Handler, middlewares: seq<Middleware>, params: Params)

  /** The beginning of a resource matches the path: every segment is the same or a parameter. */
  ghost predicate CoveredBy(resource: Pattern, path: Pattern) {
    && |path| <= |resource|
    && forall j :: 0 <= j < |path| ==> resource[j] == path[j] || (resource[j] != "" && resource[j][0] == ':')
  }

  /** The handler registered last for the resource `q` and the verb. */
  ghost predicate RegisteredLast(routes: seq<Route>, q: Pattern, verb: string, handler: Handler) {
    exists i: nat ::
      && i < |routes| && routes[i].resource == q && routes[i].verb == verb && routes[i].handler == handler
      && forall j | i < j < |routes| :: routes[j].resource != q || routes[j].verb != verb
  }

  /**
   What a router with these registrations must answer: not found unless the path is empty or covered, method not
   allowed unless the verb is registered at the node `q` that matches the path, and otherwise the last such handler.
   */
  ghost predicate Answers(routes: seq<Route>, q: Pattern, path: Pattern, verb: string, r: RouteResult) {
    if path != [] && !exists i :: 0 <= i < |routes| && CoveredBy(routes[i].resource, path)
    then r.NotRouted? && r.kind == NotFound
    else
      && |q| == |path|
      && if exists i :: 0 <= i < |routes| && routes[i].resource == q && routes[i].verb == verb
         then r.Routed? && RegisteredLast(routes, q, verb, r.methodHandler)
         else r.NotRouted? && r.kind == MethodNotAllowed
  }

  /** Routing by the table: from the node `q` where the search for `path` ended. */
  function RouteAt(t: Table, q: Pattern, path: Pattern, verb: string): RouteResult
    requires Rooted(t) && q in t
  {
    if |q| != |path| then NotRouted(NotFound, Nearest(t, q, NotFound))
    else if verb !in t[q].methodHandlers then NotRouted(MethodNotAllowed, Nearest(t, q, MethodNotAllowed))
    else Routed(t[q].methodHandlers[verb], Chain(t, q), ParamsOf(q, path))
  }
}
