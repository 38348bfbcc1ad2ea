/**
 The router: registration, mounting and routing on the heap tree, each shown to do what the table
 of `RouterTable` says.
 */
module Router {
  import opened RouterPath
  import opened RouterSearch
  import opened RouterTable
  import opened RouterTree
  import opened Wrappers

  class Router {
    const root: Node
    ghost var tree: Tree

    constructor ()
      ensures Valid() && Table() == map[[] := EMPTY] && fresh(Nodes(tree))
    {
      var node := new Node("", null);
      root := node;
      tree := Tree(map[[] := node], map[[] := LEAF]);
      new;
      LoneTree(node);
    }

    ghost predicate Valid()
      reads this, Nodes(tree)
    {
      IsTree(tree) && Stands(tree) && At(tree, []) == root
    }

    ghost function Table(): Table
      reads this
    {
      TableOf(tree)
    }

    method AddRoute(verb: string, resource: string, handler: Handler) returns (ghost made: set<Node>)
      requires Valid()
      modifies this`tree, Nodes(tree)
      ensures Valid() && fresh(made) && Nodes(tree) == old(Nodes(tree)) + made
      ensures Table() == RouterTable.AddRoute(old(Table()), Names(resource), verb, handler)
    {
      hide IsTree, Stands, Nodes, TableOf, NormalizePath, Names, Segments, AllSegments, Created, Stems;
      Normalizes(resource);
      ghost var p, t := Names(resource), tree;
      var node: Node;
      node, t, made := root.FindOrCreateIfNotExist(NormalizePath(resource), t, []);
      assert [] + p == p;
      NodeOf(t, p);
      tree := node.SetMethodHandler(verb, handler, t, p);
      SameNodes(t, tree);
      RouteAdded(old(Table()), p, verb, handler);
    }

    method AddMiddleware(middleware: Middleware)
      requires Valid()
      modifies this`tree, root
      ensures Valid() && Nodes(tree) == old(Nodes(tree)) && [] in old(Table())
      ensures var e := old(Table())[[]];
              Table() == old(Table())[[] := e.(middlewares := e.middlewares + [middleware])]
    {
      hide IsTree, Stands, TableOf;
      ghost var t := tree;
      tree := root.AddMiddleware(middleware, tree, []);
      SameNodes(t, tree);
    }

    method SetNotFoundHandler(handler: Handler)
      requires Valid()
      modifies this`tree, root
      ensures Valid() && Nodes(tree) == old(Nodes(tree)) && [] in old(Table())
      ensures Table() == old(Table())[[] := old(Table())[[]].(notFoundHandler := Some(handler))]
    {
      hide IsTree, Stands, TableOf;
      ghost var t := tree;
      tree := root.SetNotFoundHandler(handler, tree, []);
      SameNodes(t, tree);
    }

    method SetMethodNotAllowedHandler(handler: Handler)
      requires Valid()
      modifies this`tree, root
      ensures Valid() && Nodes(tree) == old(Nodes(tree)) && [] in old(Table())
      ensures Table() == old(Table())[[] := old(Table())[[]].(methodNotAllowedHandler := Some(handler))]
    {
      hide IsTree, Stands, TableOf;
      ghost var t := tree;
      tree := root.SetMethodNotAllowedHandler(handler, tree, []);
      SameNodes(t, tree);
    }

    method SetExceptionHandler(handler: ExceptionHandler)
      requires Valid()
      modifies this`tree, root
      ensures Valid() && Nodes(tree) == old(Nodes(tree)) && [] in old(Table())
      ensures Table() == old(Table())[[] := old(Table())[[]].(exceptionHandler := Some(handler))]
    {
      hide IsTree, Stands, TableOf;
      ghost var t := tree;
      tree := root.SetErrorHandler(handler, tree, []);
      SameNodes(t, tree);
    }

    // ----- mounting -----

    /** Grafts the tree of another router under a prefix. */
    method Use(prefix: string, router: Router) returns (ghost made: set<Node>)
      requires Valid() && router.Valid() && Owned() !! router.Owned()
      modifies this`tree, Owned()
      ensures Valid() && fresh(made) && Owned() == old(Owned()) + made
      ensures Landed(old(Table()), prefix, old(router.Table()), old(router.Table()).Keys, Table())
      ensures AllUnder(prefix, old(router.Table())) ==>
                Table() == Mount(old(Table()), Names(prefix), old(router.Table()))
    {
      hide IsTree, Stands, TableOf, Listed, Landed, AllUnder, Mount, Names;
      ShapeValid(router.tree);
      ghost var m := Mounting(prefix, router, router.Table(), Table());
      MountStarts(router.tree, Table(), prefix);
      made := VisitAndTake(prefix, router.root, "", m, [], {});
      if AllUnder(prefix, m.entries) {
        LandedIsMount(m.table, prefix, m.entries, Table());
      }
    }

    ghost function Owned(): set<Node>
      reads this
    {
      Nodes(tree)
    }

    ghost function NodeAt(p: Pattern): Node?
      reads this
    {
      At(tree, p)
    }

    /** The mount `m` is under way: the entries of `done` have arrived. */
    ghost predicate Mounts(m: Mounting, done: set<Pattern>)
      reads this, Owned()
    {
      Valid() && Landed(m.table, m.prefix, m.entries, done, Table())
    }

    /** `node` stands at `k` in the router being mounted. */
    ghost predicate Source(m: Mounting, k: Pattern, node: Node)
      reads m.sub, m.sub.Owned()
    {
      m.sub.Valid() && m.sub.Table() == m.entries && m.sub.NodeAt(k) == node
    }

    /** What `use` does with one visited node. */
    method TakeOne(prefix: string, node: Node, path: string, ghost m: Mounting, ghost k: Pattern,
                   ghost done: set<Pattern>)
      returns (ghost made: set<Node>)
      requires Mounts(m, done) && Source(m, k, node) && m.prefix == prefix && Owned() !! m.sub.Owned()
      requires m.sub != this && Listed(path) == k
      modifies this`tree, Owned()
      ensures Mounts(m, done + {k}) && Source(m, k, node)
      ensures fresh(made) && Owned() == old(Owned()) + made
    {
      hide IsTree, Stands, TableOf, NormalizePath, Names, Listed, Spot, Segments, AllSegments, Created, Stems, Landed;
      ContentAt(m.sub.tree, k, node);
      ghost var q, t, t1 := Spot(prefix, k), tree, tree;
      SpotIs(prefix, path);
      Normalizes(prefix + "/" + path);
      var newPath := NormalizePath(prefix + "/" + path);
      var newNode: Node;
      newNode, t1, made := root.FindOrCreateIfNotExist(newPath, t, []);
      assert [] + q == q;
      NodeOf(t1, q);
      RootKept(t, t1);
      tree := newNode.TakeAt(node, t1, q);
      SameNodes(t1, tree);
      LandStep(m.table, prefix, m.entries, done, TableOf(t), k);
    }

    /** The visit of one node of the other tree, and of the nodes below it. */
    method VisitAndTake(prefix: string, node: Node, path: string, ghost m: Mounting, ghost k: Pattern,
                        ghost done: set<Pattern>)
      returns (ghost made: set<Node>)
      requires Mounts(m, done) && Source(m, k, node) && m.prefix == prefix && Owned() !! m.sub.Owned()
      requires m.sub != this && Listed(path) == if k == [] then [] else Init(k)
      modifies this`tree, Owned()
      ensures Mounts(m, done + Below(m.entries, k)) && Source(m, k, node)
      ensures fresh(made) && Owned() == old(Owned()) + made
      decreases Below(m.entries, k), 2
    {
      hide Mounts, Source, Valid, NodeAt, Listed, Arrived, Below, Elements;
      HeldAt(m, k, node);
      VisitedPath(m.sub.tree, k, path);
      var here := path + "/" + node.nodeSegment;
      made := TakeOne(prefix, node, here, m, k, done);
      VisitStarts(m.entries, k, done);
      ghost var more := VisitChildren(prefix, node, here, m, k, done);
      Gathered(old(Owned()), made, more);
      made := made + more;
    }

    method VisitChildren(prefix: string, node: Node, here: string, ghost m: Mounting, ghost k: Pattern,
                         ghost done: set<Pattern>)
      returns (ghost made: set<Node>)
      requires Mounts(m, Arrived(m.entries, done, k, {})) && Source(m, k, node) && m.prefix == prefix
      requires Owned() !! m.sub.Owned() && m.sub != this && Listed(here) == k
      modifies this`tree, Owned()
      ensures Mounts(m, done + Below(m.entries, k)) && Source(m, k, node)
      ensures fresh(made) && Owned() == old(Owned()) + made
      decreases Below(m.entries, k), 1
    {
      hide Mounts, Source, Valid, NodeAt, Listed, Arrived, Below, Elements, Lists;
      HeldAt(m, k, node);
      var order := AnyOrder(node.fixedSubtree.Keys);
      ListsChildren(m, k, node, order);
      ghost var params := Elements(node.paramOrder);
      made := VisitEach(prefix, node, node.paramSubtree, node.paramOrder, here, m, k, done, {});
      assert {} + params == params;
      ListsChildren(m, k, node, order);
      ghost var more := VisitEach(prefix, node, node.fixedSubtree, order, here, m, k, done, params);
      Gathered(old(Owned()), made, more);
      made := made + more;
      VisitEnds(m, k, done, node);
    }

    /** One of the two loops over the children of the visited node. */
    method VisitEach(prefix: string, node: Node, subtree: map<string, Node>, order: seq<string>, here: string,
                     ghost m: Mounting, ghost k: Pattern, ghost done: set<Pattern>, ghost before: set<string>)
      returns (ghost made: set<Node>)
      requires Mounts(m, Arrived(m.entries, done, k, before)) && Source(m, k, node) && m.prefix == prefix
      requires Owned() !! m.sub.Owned() && m.sub != this && Listed(here) == k
      requires Lists(node, subtree, order)
      modifies this`tree, Owned()
      ensures Mounts(m, Arrived(m.entries, done, k, before + Elements(order))) && Source(m, k, node)
      ensures fresh(made) && Owned() == old(Owned()) + made
      decreases Below(m.entries, k), 0
    {
      hide Mounts, Source, Valid, NodeAt, Listed, Arrived, Below, Elements, Lists;
      HeldAt(m, k, node);
      NoElements();
      ghost var seen := before;
      assert order[..0] == [] && before + {} == before;
      made := {};
      for i := 0 to |order|
        invariant Mounts(m, Arrived(m.entries, done, k, seen)) && seen == before + Elements(order[..i])
        invariant fresh(made) && Owned() == old(Owned()) + made
      {
        var x := order[i];
        ChildVisit(m, k, node, subtree, order, x, done, seen);
        OneMoreElement(order, i);
        ghost var more := VisitAndTake(prefix, subtree[x], here, m, k + [x], Arrived(m.entries, done, k, seen));
        Gathered(old(Owned()), made, more);
        made, seen := made + more, seen + {x};
      }
      assert order[..|order|] == order;
    }

    // ----- routing -----

    /** The pattern of the node where every search for a path ends. */
    ghost function Destination(path: Pattern): (q: Pattern)
      requires IsTree(tree)
      reads this
      ensures IsBest(ShapeOf(tree), path, q) && Rooted(Table()) && q in Table()
    {
      ShapeValid(tree);
      BestNode(ShapeOf(tree), path)
    }

    /** A router built by registrations finds a path iff a registered resource covers it. */
    lemma FindsRegistered(routes: seq<Route>, path: Pattern)
      requires Valid() && Table() == AddRoutes(map[[] := EMPTY], routes)
      ensures |Destination(path)| == |path| <==>
              path == [] || exists i :: 0 <= i < |routes| && Covers(routes[i].resource, path)
    {
      hide IsTree;
      ShapeValid(tree);
      assert ShapeOf(tree).dom == TableOf(tree).Keys;
      FoundIffRegistered(routes, ShapeOf(tree), path);
    }

    method FindNode(normalizedPath: string) returns (found: bool, bestNode: Node, bestNodeDepth: nat)
      requires Valid()
      ensures var q := Destination(Segments(normalizedPath));
              && bestNode == NodeAt(q) && bestNodeDepth == |q| + 1
              && (found <==> |q| == |Segments(normalizedPath)|)
      ensures Valid()
    {
      hide IsTree, ShapeOf, IsBest, Search, Segments;
      var ctx := new FindCtx();
      ShapeValid(tree);
      SearchFindsBest(ShapeOf(tree), Segments(normalizedPath));
      ghost var b: Best;
      found, b := root.FindNode(ctx, normalizedPath, tree, [], NO_NODE);
      bestNode, bestNodeDepth := ctx.bestNode, ctx.bestNodeDepth;
    }

    lemma RouteMeans(path: Pattern, verb: string)
      requires Valid()
      ensures var q := Destination(path);
              var r := RouteAt(Table(), q, path, verb);
              && |q| <= |path|
              && (r.NotRouted? ==> exists n :: DeepestHandler(Table(), q, r.kind, n, r.handler))
      ensures forall routes | Table() == AddRoutes(map[[] := EMPTY], routes) ::
                Answers(routes, Destination(path), path, verb, RouteAt(Table(), Destination(path), path, verb))
    {
      hide IsTree, Rooted, Answers, DeepestHandler, AddRoutes, Chain, Nearest, ParamsOf;
      ShapeValid(tree);
      var q, t := Destination(path), Table();
      var r := RouteAt(t, q, path, verb);
      if r.NotRouted? {
        var n := NearestIsDeepest(t, q, r.kind);
      }
      forall routes | t == AddRoutes(map[[] := EMPTY], routes)
        ensures Answers(routes, q, path, verb, r)
      {
        RouteDecides(routes, t, ShapeOf(tree), path, verb);
      }
    }

    method Route(verb: string, path: string) returns (result: RouteResult)
      requires Valid()
      ensures result == RouteAt(Table(), Destination(Names(path)), Names(path), verb)
      ensures var q := Destination(Names(path));
              && (result.NotRouted? && result.kind == NotFound <==> |q| != |Names(path)|)
              && (result.Routed? <==> |q| == |Names(path)| && verb in Table()[q].methodHandlers)
              && (result.Routed? ==> result.methodHandler == Table()[q].methodHandlers[verb])
              && (result.NotRouted? ==> exists n :: DeepestHandler(Table(), q, result.kind, n, result.handler))
      ensures forall routes | Table() == AddRoutes(map[[] := EMPTY], routes) ::
                Answers(routes, Destination(Names(path)), Names(path), verb, result)
    {
      hide IsTree, Stands, TableOf, ShapeOf, IsBest, Rooted, Destination;
      hide Names, NormalizePath, Segments, Normalized, Chain, Nearest, ParamsOf, Answers, DeepestHandler, AddRoutes;
      RouteMeans(Names(path), verb);
      Normalizes(path);
      var normalizedPath := NormalizePath(path);
      var found, bestNode, bestNodeDepth := FindNode(normalizedPath);
      ghost var q := Destination(Names(path));
      EntryAt(tree, q, bestNode);
      if !found {
        var handler := bestNode.FindBestHttpErrHandler(NotFound, tree, q);
        return NotRouted(NotFound, handler);
      }
      if verb !in bestNode.methodHandlers {
        var handler := bestNode.FindBestHttpErrHandler(MethodNotAllowed, tree, q);
        return NotRouted(MethodNotAllowed, handler);
      }
      var middlewares := bestNode.Middlewares(tree, q);
      var processedPath := LimitPathByDepth(normalizedPath, bestNodeDepth);
      PathOf(path);
      var rawPathParams := bestNode.ExtractParamsFromPath(processedPath, [], tree, q, Names(path));
      assert [] + ParamsOf(q, Names(path)) == ParamsOf(q, Names(path));
      result := Routed(bestNode.methodHandlers[verb], middlewares, rawPathParams);
    }

    method AllowMethods(path: string) returns (methodNames: seq<string>)
      requires Valid()
      ensures NoDuplicates(methodNames)
      ensures var q := Destination(Names(path));
              forall m :: m in methodNames <==> |q| == |Names(path)| && m in Table()[q].methodHandlers
    {
      hide IsTree, Stands, TableOf, ShapeOf, IsBest, Names, NormalizePath, Segments, Normalized, Destination;
      Normalizes(path);
      var found, bestNode, _ := FindNode(NormalizePath(path));
      EntryAt(tree, Destination(Names(path)), bestNode);
      if !found {
        return [];
      }
      methodNames := bestNode.AllowMethods();
    }

    /** The exception handler for a routed path: the search repeated there ends at the same node. */
    method ProcessException(normalizedPath: string) returns (handler: Option<ExceptionHandler>)
      requires Valid() && |Destination(Segments(normalizedPath))| == |Segments(normalizedPath)|
      ensures handler == NearestException(Table(), Destination(Segments(normalizedPath)))
      ensures exists n :: DeepestException(Table(), Destination(Segments(normalizedPath)), n, handler)
    {
      hide IsTree, Stands, TableOf, ShapeOf, IsBest, NearestException, Rooted, Segments, Destination, DeepestException;
      var found, bestNode, _ := FindNode(normalizedPath);
      assert found;
      EntryAt(tree, Destination(Segments(normalizedPath)), bestNode);
      handler := bestNode.FindBestExceptionHandler(tree, Destination(Segments(normalizedPath)));
      ghost var n := NearestExceptionIsDeepest(Table(), Destination(Segments(normalizedPath)));
    }

    // ----- facts about the router being mounted -----

    lemma HeldAt(m: Mounting, k: Pattern, node: Node)
      requires Source(m, k, node)
      ensures node in m.sub.Owned() && IsTree(m.sub.tree) && At(m.sub.tree, k) == node
    {
    }

    lemma ChildVisit(m: Mounting, k: Pattern, node: Node, subtree: map<string, Node>, order: seq<string>,
                     x: string, done: set<Pattern>, seen: set<string>)
      requires Source(m, k, node) && Lists(node, subtree, order) && x in order
      ensures x in subtree && Source(m, k + [x], subtree[x])
      ensures k + [x] != [] && Init(k + [x]) == k
      ensures Arrived(m.entries, done, k, seen) + Below(m.entries, k + [x]) == Arrived(m.entries, done, k, seen + {x})
      ensures Below(m.entries, k + [x]) < Below(m.entries, k)
    {
      hide IsTree, TableOf, Rooted, BelowSome, Below, Arrived;
      var s := m.sub.tree;
      ShapeValid(s);
      ChildAt(s, k, x);
      ParentTable(s, k);
      ChildNext(TableOf(s), k, x, done, seen);
      BelowLess(TableOf(s), k, x);
    }

    lemma ListsChildren(m: Mounting, k: Pattern, node: Node, order: seq<string>)
      requires Source(m, k, node) && Elements(order) == node.fixedSubtree.Keys
      ensures Lists(node, node.paramSubtree, node.paramOrder) && Lists(node, node.fixedSubtree, order)
    {
      var s := m.sub.tree;
      assert HoldsChildren(s.nodes, k, s.rows[k]);
      assert forall x | x in order :: x in Elements(order);
    }

    lemma VisitEnds(m: Mounting, k: Pattern, done: set<Pattern>, node: Node)
      requires Source(m, k, node)
      ensures Arrived(m.entries, done, k, Elements(node.paramOrder) + node.fixedSubtree.Keys) ==
              done + Below(m.entries, k)
    {
      var s := m.sub.tree;
      ShapeValid(s);
      assert HoldsChildren(s.nodes, k, s.rows[k]);
      BelowAll(m.entries, k, Elements(node.paramOrder) + node.fixedSubtree.Keys);
    }
  }

  /** A mount of the router `sub`, whose entries these are, under `prefix` of a router whose table was `table`. */
  datatype Mounting = Mounting(prefix: string, sub: Router, entries: Table, table: Table)

  /** `order` goes through the keys of one of the two child maps. */
  ghost predicate Lists(node: Node, subtree: map<string, Node>, order: seq<string>)
    reads node
  {
    forall x | x in order ::
      x in subtree && ((x in node.paramOrder && x in node.paramSubtree && node.paramSubtree[x] == subtree[x])
                       || (x in node.fixedSubtree && node.fixedSubtree[x] == subtree[x]))
  }

  /** What has arrived when `k` and some of its children have been visited. */
  ghost function Arrived(sub: Table, done: set<Pattern>, k: Pattern, children: set<string>): set<Pattern> {
    done + {k} + BelowSome(sub, k, children)
  }

  /** A registered resource whose beginning matches the whole path. */
  ghost predicate Covers(resource: Pattern, path: Pattern) {
    |path| <= |resource| && Matches(resource[..|path|], path)
  }

  /** The search in a tree built by registrations matches the whole path iff a registered resource covers it. */
  lemma FoundIffRegistered(routes: seq<Route>, s: Shape, path: Pattern)
    requires Valid(s) && s.dom == AddRoutes(map[[] := EMPTY], routes).Keys
    ensures |BestNode(s, path)| == |path| <==>
            path == [] || exists i :: 0 <= i < |routes| && Covers(routes[i].resource, path)
  {
    hide Valid, IsBest, AddRoutes;
    NodesAreStems(routes);
    SearchFindsBest(s, path);
    if q :| q in s.dom && |q| == |path| && Matches(q, path) {
      if path != [] {
        var i :| 0 <= i < |routes| && q <= routes[i].resource;
        assert routes[i].resource[..|path|] == q;
        assert Covers(routes[i].resource, path);
      }
    }
    if path == [] {
      assert [] in s.dom && Matches([], path);
    } else if i :| 0 <= i < |routes| && Covers(routes[i].resource, path) {
      assert routes[i].resource[..|path|] <= routes[i].resource;
    }
  }

  /** Routing in a tree built by registrations answers what the registrations say. */
  lemma RouteDecides(routes: seq<Route>, t: Table, s: Shape, path: Pattern, verb: string)
    requires Valid(s) && Rooted(t) && t == AddRoutes(map[[] := EMPTY], routes) && s.dom == t.Keys
    ensures Answers(routes, BestNode(s, path), path, verb, RouteAt(t, BestNode(s, path), path, verb))
  {
    hide Valid, Rooted, IsBest, AddRoutes, Chain, Nearest, ParamsOf, CoveredBy, Covers, RegisteredLast;
    var q := BestNode(s, path);
    BestAmongNodes(s, path);
    FoundIffRegistered(routes, s, path);
    forall i | 0 <= i < |routes|
      ensures Covers(routes[i].resource, path) <==> CoveredBy(routes[i].resource, path)
    {
      CoversLiterally(routes[i].resource, path);
    }
    HandledLast(routes, t, q, verb);
  }

  lemma BestAmongNodes(s: Shape, path: Pattern)
    requires Valid(s)
    ensures BestNode(s, path) in s.dom
  {
  }

  lemma CoversLiterally(resource: Pattern, path: Pattern)
    ensures Covers(resource, path) <==> CoveredBy(resource, path)
  {
    if |path| <= |resource| {
      assert forall j | 0 <= j < |path| :: resource[..|path|][j] == resource[j];
    }
  }

  lemma HandledLast(routes: seq<Route>, t: Table, q: Pattern, verb: string)
    requires t == AddRoutes(map[[] := EMPTY], routes) && q in t
    ensures verb in t[q].methodHandlers <==>
              exists i :: 0 <= i < |routes| && routes[i].resource == q && routes[i].verb == verb
    ensures verb in t[q].methodHandlers ==> RegisteredLast(routes, q, verb, t[q].methodHandlers[verb])
  {
    hide AddRoutes, Registers, RegisteredLast;
    LastRegistrationWins(routes, q, verb);
    RegistersLiterally(routes, q, verb);
    if i: nat :| Registers(routes, q, verb, i) {
      var last := LastOf(routes, q, verb, i);
      LastLiterally(routes, q, verb, last);
      assert Handled(t, q, verb) == Some(routes[last].handler);
    }
  }

  lemma RegistersLiterally(routes: seq<Route>, q: Pattern, verb: string)
    ensures (exists i: nat :: Registers(routes, q, verb, i)) <==>
            exists i :: 0 <= i < |routes| && routes[i].resource == q && routes[i].verb == verb
  {
    if i: nat :| Registers(routes, q, verb, i) {
      assert routes[i].resource == q && routes[i].verb == verb;
    } else if i :| 0 <= i < |routes| && routes[i].resource == q && routes[i].verb == verb {
      assert Registers(routes, q, verb, i);
    }
  }

  lemma LastLiterally(routes: seq<Route>, q: Pattern, verb: string, last: nat)
    requires Registers(routes, q, verb, last) && forall j | last < j < |routes| :: !Registers(routes, q, verb, j)
    ensures last < |routes| && RegisteredLast(routes, q, verb, routes[last].handler)
  {
    forall j | last < j < |routes|
      ensures routes[j].resource != q || routes[j].verb != verb
    {
      assert !Registers(routes, q, verb, j);
    }
  }

  lemma LastOf(routes: seq<Route>, q: Pattern, verb: string, i: nat) returns (last: nat)
    requires Registers(routes, q, verb, i)
    ensures Registers(routes, q, verb, last) && forall j | last < j < |routes| :: !Registers(routes, q, verb, j)
    decreases |routes| - i
  {
    if j: nat :| i < j < |routes| && Registers(routes, q, verb, j) {
      last := LastOf(routes, q, verb, j);
    } else {
      last := i;
    }
  }

  lemma EntryAt(t: Tree, p: Pattern, node: Node)
    requires Stands(t) && At(t, p) == node
    ensures p in TableOf(t) && TableOf(t)[p] == node.Content()
  {
  }

  lemma PathOf(path: string)
    ensures Segments(NormalizePath(path)) == Names(path) && AllSegments(Names(path))
    ensures Join(Names(path)[..|Names(path)|]) == NormalizePath(path) == Join(Names(path))
  {
    Normalizes(path);
    NamesAreSegments(path);
    assert Names(path)[..|Names(path)|] == Names(path);
  }

  lemma NodeOf(t: Tree, p: Pattern)
    requires p in t.nodes
    ensures t.nodes[p] in Nodes(t)
  {
  }

  lemma SameNodes(t: Tree, t2: Tree)
    requires t2.nodes == t.nodes
    ensures Nodes(t2) == Nodes(t)
  {
  }

  lemma RouteAdded(t: Table, p: Pattern, verb: string, handler: Handler)
    requires p in Created(t, Stems([], p))
    ensures var e := Created(t, Stems([], p))[p];
            RouterTable.AddRoute(t, p, verb, handler) ==
            Created(t, Stems([], p))[p := e.(methodHandlers := e.methodHandlers[verb := handler])]
  {
  }

  lemma RootKept(t: Tree, t1: Tree)
    requires Extends(t, t1) && [] in t.nodes
    ensures At(t1, []) == At(t, [])
  {
  }

  lemma ContentAt(s: Tree, k: Pattern, node: Node)
    requires Stands(s) && At(s, k) == node
    ensures k in TableOf(s) && TableOf(s)[k] == node.Content() && node in Nodes(s)
  {
  }

  lemma MountStarts(s: Tree, t: Table, prefix: string)
    requires IsTree(s)
    ensures Landed(t, prefix, TableOf(s), {}, t)
    ensures {} + Below(TableOf(s), []) == TableOf(s).Keys && Listed("") == []
  {
    NameAlone("");
    LandedNone(t, prefix, TableOf(s));
  }

  lemma VisitStarts(sub: Table, k: Pattern, done: set<Pattern>)
    ensures Arrived(sub, done, k, {}) == done + {k}
  {
  }

  /** The iteration order of an unordered map: any. */
  method AnyOrder(keys: set<string>) returns (order: seq<string>)
    ensures NoDuplicates(order) && Elements(order) == keys
    ensures forall x :: x in order ==> x in keys
  {
    order := [];
    var left := keys;
    while left != {}
      invariant left <= keys && NoDuplicates(order) && Elements(order) == keys - left
      decreases left
    {
      var x :| x in left;
      assert x !in Elements(order) && Elements(order + [x]) == Elements(order) + {x};
      order, left := order + [x], left - {x};
    }
    assert forall x :: x in order ==> x in Elements(order);
  }

  lemma NoElements()
    ensures Elements([]) == {}
  {
  }

  lemma OneMoreElement(order: seq<string>, i: nat)
    requires i < |order|
    ensures Elements(order[..i + 1]) == Elements(order[..i]) + {order[i]}
  {
    assert order[..i + 1] == order[..i] + [order[i]];
  }

  /** The visited path lists the names of the pattern. */
  lemma VisitedPath(s: Tree, k: Pattern, path: string)
    requires IsTree(s) && k in s.nodes
    requires Listed(path) == if k == [] then [] else Init(k)
    ensures Listed(path + "/" + s.nodes[k].nodeSegment) == k
  {
    hide IsTree, Listed;
    ParentOf(s, k);
    SegmentAt(s, k);
    var segment := s.nodes[k].nodeSegment;
    ListedConcat(path, segment);
    NameAlone(segment);
  }

  lemma SegmentAt(s: Tree, k: Pattern)
    requires IsTree(s) && k in s.nodes
    ensures k != [] ==> IsSegment(s.nodes[k].nodeSegment)
  {
  }

  lemma ChildAt(s: Tree, k: Pattern, x: string)
    requires IsTree(s) && k in s.nodes && (x in s.rows[k].order || x in s.rows[k].fixed)
    ensures x in s.rows[k].order ==> x in s.rows[k].param && At(s, k + [x]) == s.rows[k].param[x]
    ensures x in s.rows[k].fixed ==> At(s, k + [x]) == s.rows[k].fixed[x]
  {
    hide LinkedUp;
    assert HoldsChildren(s.nodes, k, s.rows[k]);
  }

  lemma ChildNext(sub: Table, k: Pattern, x: string, done: set<Pattern>, seen: set<string>)
    ensures Init(k + [x]) == k
    ensures Arrived(sub, done, k, seen) + Below(sub, k + [x]) == Arrived(sub, done, k, seen + {x})
  {
    hide BelowSome, Below;
    BelowOneMore(sub, k, seen, x);
  }

  lemma BelowLess(sub: Table, k: Pattern, x: string)
    requires k in sub
    ensures Below(sub, k + [x]) < Below(sub, k)
  {
    assert k in Below(sub, k) && k !in Below(sub, k + [x]);
    forall q | q in Below(sub, k + [x])
      ensures q in Below(sub, k)
    {
      assert k <= k + [x] <= q;
    }
  }

  /** What was made before and what is made now. */
  lemma Gathered(start: set<Node>, made: set<Node>, more: set<Node>)
    ensures start + made + more == start + (made + more)
  {
  }
}
