/**
 The router's tree of nodes on the heap. A ghost value says which node stands where and what it holds;
 `IsTree` is the invariant on that value, and `Stands` says that the heap agrees with it.
 */
module RouterTree {
  import opened RouterPath
  import opened RouterSearch
  import opened RouterTable
  import opened Wrappers

  class Node {
    const nodeSegment: string
    const parent: Node?

    var methodHandlers: map<string, Handler>
    var notFoundHandler: Option<Handler>
    var methodNotAllowedHandler: Option<Handler>
    var exceptionHandler: Option<ExceptionHandler>
    var middlewares: seq<Middleware>

    var fixedSubtree: map<string, Node>
    var paramSubtree: map<string, Node>
    // The iteration order of the unordered paramSubtree: any, but fixed while the map is not changed.
    var paramOrder: seq<string>

    constructor (segment: string, parent: Node?)
      ensures nodeSegment == segment && this.parent == parent && Held() == LEAF
    {
      nodeSegment, this.parent := segment, parent;
      methodHandlers, notFoundHandler, methodNotAllowedHandler, exceptionHandler := map[], None, None, None;
      middlewares, fixedSubtree, paramSubtree, paramOrder := [], map[], map[], [];
    }

    function Content(): Entry
      reads this
    {
      Entry(methodHandlers, notFoundHandler, methodNotAllowedHandler, exceptionHandler, middlewares)
    }

    function Held(): Row
      reads this
    {
      Row(Content(), fixedSubtree, paramSubtree, paramOrder)
    }

    predicate IsParamNode() {
      IsParamSegment(nodeSegment)
    }

    /** Hangs a new empty node under this one. */
    method CreateChild(k: string, ghost t: Tree, ghost p: Pattern) returns (child: Node, ghost t2: Tree)
      requires IsTree(t) && Stands(t) && At(t, p) == this && IsSegment(k) && p + [k] !in t.nodes
      modifies this`fixedSubtree, this`paramSubtree, this`paramOrder
      ensures IsTree(t2) && Stands(t2)
      ensures fresh(child) && t2.nodes == t.nodes[p + [k] := child]
      ensures TableOf(t2) == TableOf(t)[p + [k] := EMPTY]
    {
      hide IsTree;
      child := new Node(k, this);
      NewKey(t, p, k);
      if IsParamSegment(k) {
        var order := Rehashed(paramOrder, k);
        paramOrder, paramSubtree := order, paramSubtree[k := child];
      } else {
        fixedSubtree := fixedSubtree[k := child];
      }
      t2 := Hung(t, p, k, child, Held());
      HungIsTree(t, p, k, child, Held());
      HungStands(t, p, k, child);
    }

    /** The child for one segment, created if need be. */
    method FindOrCreateChild(k: string, ghost t: Tree, ghost p: Pattern)
      returns (child: Node, ghost t2: Tree, ghost made: set<Node>)
      requires IsTree(t) && Stands(t) && At(t, p) == this && IsSegment(k)
      modifies this`fixedSubtree, this`paramSubtree, this`paramOrder
      ensures IsTree(t2) && Stands(t2) && Extends(t, t2)
      ensures fresh(made) && Nodes(t2) == Nodes(t) + made
      ensures TableOf(t2) == Created(TableOf(t), {p + [k]}) && At(t2, p + [k]) == child
    {
      hide IsTree, HoldsChildren, Created, TableOf, Extends, Nodes;
      ChildLookup(t, p, k);
      var subtree := if IsParamSegment(k) then paramSubtree else fixedSubtree;
      if k in subtree {
        child, t2, made := subtree[k], t, {};
        FoundChild(t, p + [k]);
      } else {
        child, t2 := CreateChild(k, t, p);
        made := {child};
        NewChild(t, p + [k], child, t2);
      }
    }

    method FindOrCreateIfNotExist(resource: string, ghost t: Tree, ghost p: Pattern)
      returns (node: Node, ghost t2: Tree, ghost made: set<Node>)
      requires IsTree(t) && Stands(t) && At(t, p) == this && AllSegments(Segments(resource))
      modifies Nodes(t)
      ensures IsTree(t2) && Stands(t2) && Extends(t, t2)
      ensures fresh(made) && Nodes(t2) == Nodes(t) + made
      ensures TableOf(t2) == Created(TableOf(t), Stems(p, Segments(resource))) && At(t2, p + Segments(resource)) == node
      decreases |resource|
    {
      hide IsTree, Stands, Nodes, At, Created, TableOf, Extends, Stems, Segments, AllSegments, HeadSegmentAndTail;
      InNodes(t, p, this);
      if resource == "" {
        node, t2, made := this, t, {};
        FoundHere(t, p);
        return;
      }
      var (headSegment, tail) := HeadSegmentAndTail(resource);
      SegmentsHead(resource);
      var child: Node;
      ghost var t1, made1;
      child, t1, made1 := FindOrCreateChild(headSegment, t, p);
      ghost var made2;
      node, t2, made2 := child.FindOrCreateIfNotExist(tail, t1, p + [headSegment]);
      made := made1 + made2;
      OneStepMore(t, t1, t2, p, headSegment, Segments(tail));
    }

    // ----- finding -----

    method FindNode(ctx: FindCtx, path: string, ghost t: Tree, ghost p: Pattern, ghost b: Best)
      returns (found: bool, ghost b2: Best)
      requires IsTree(t) && Stands(t) && At(t, p) == this && ctx.curDepth == |p| && ctx.Follows(t, b)
      modifies ctx
      ensures ctx.curDepth == |p| && ctx.Follows(t, b2) && Stands(t)
      ensures (found, b2) == Search(ShapeOf(t), p, Segments(path), b)
      decreases |path|
    {
      hide IsTree, Stands, At, Segments, HeadSegmentAndTail, IsParamSegment;
      hide Search, SearchParams, ShapeOf, FindCtx.Follows, Enter;
      InNodes(t, p, this);
      SearchStep(t, p, path, b);
      ParamLookup(t, p);
      ghost var (head, _) := HeadSegmentAndTail(path);
      FixedLookup(t, p, head);
      ctx.Entry(this, t, p, b);
      b2 := Enter(b, p);
      if path == "" {
        ctx.Leave(t);
        return true, b2;
      }
      var (headSegment, tail) := HeadSegmentAndTail(path);
      PathShorter(path);
      found := false;
      if headSegment in fixedSubtree {
        found, b2 := fixedSubtree[headSegment].FindNode(ctx, tail, t, p + [headSegment], b2);
        if found {
          ctx.Leave(t);
          return;
        }
      }
      ghost var rest, b1 := Segments(tail), b2;
      var i := 0;
      while i < |paramOrder|
        invariant 0 <= i <= |paramOrder| && !found
        invariant ctx.curDepth == |p| + 1 && ctx.Follows(t, b2) && Stands(t)
        invariant SearchParams(ShapeOf(t), p, paramOrder, rest, b1) ==
                  SearchParams(ShapeOf(t), p, paramOrder[i..], rest, b2)
      {
        var node := paramSubtree[paramOrder[i]];
        SearchNext(ShapeOf(t), p, paramOrder, i, rest, b2);
        found, b2 := node.FindNode(ctx, tail, t, p + [paramOrder[i]], b2);
        if found {
          ctx.Leave(t);
          return;
        }
        i := i + 1;
      }
      SearchNoMore(ShapeOf(t), p, paramOrder, rest, b2);
      ctx.Leave(t);
    }

    method AllowMethods() returns (methodNames: seq<string>)
      ensures NoDuplicates(methodNames) && forall m :: m in methodNames <==> m in methodHandlers
    {
      methodNames := [];
      var left := methodHandlers.Keys;
      while left != {}
        invariant left <= methodHandlers.Keys && NoDuplicates(methodNames)
        invariant forall m :: m in methodNames <==> m in methodHandlers && m !in left
        decreases left
      {
        var methodName :| methodName in left;
        methodNames := methodNames + [methodName];
        left := left - {methodName};
      }
    }

    // ----- walking up -----

    method Middlewares(ghost t: Tree, ghost p: Pattern) returns (result: seq<Middleware>)
      requires IsTree(t) && Stands(t) && Rooted(TableOf(t)) && At(t, p) == this
      ensures result == Chain(TableOf(t), p)
    {
      hide IsTree, Rooted;
      result := [];
      var cur: Node? := this;
      ghost var q := p;
      while cur != null
        invariant cur == null ==> result == Chain(TableOf(t), p)
        invariant cur != null ==> At(t, q) == cur && Chain(TableOf(t), p) == Chain(TableOf(t), q) + result
        decreases if cur == null then 0 else 1 + |q|
      {
        ParentOf(t, q);
        result := cur.middlewares + result;
        cur := cur.parent;
        q := if q == [] then q else Init(q);
      }
    }

    method FindBestHttpErrHandler(kind: Kind, ghost t: Tree, ghost p: Pattern) returns (handler: Option<Handler>)
      requires IsTree(t) && Stands(t) && Rooted(TableOf(t)) && At(t, p) == this
      ensures handler == Nearest(TableOf(t), p, kind)
    {
      hide IsTree, Rooted;
      var cur: Node? := this;
      ghost var q := p;
      while cur != null
        invariant cur == null ==> Nearest(TableOf(t), p, kind) == None
        invariant cur != null ==> At(t, q) == cur && Nearest(TableOf(t), p, kind) == Nearest(TableOf(t), q, kind)
        decreases if cur == null then 0 else 1 + |q|
      {
        ParentOf(t, q);
        handler := if kind == NotFound then cur.notFoundHandler else cur.methodNotAllowedHandler;
        if handler != None {
          return;
        }
        cur := cur.parent;
        q := if q == [] then q else Init(q);
      }
      handler := None;
    }

    method FindBestExceptionHandler(ghost t: Tree, ghost p: Pattern) returns (handler: Option<ExceptionHandler>)
      requires IsTree(t) && Stands(t) && Rooted(TableOf(t)) && At(t, p) == this
      ensures handler == NearestException(TableOf(t), p)
    {
      hide IsTree, Rooted;
      var cur: Node? := this;
      ghost var q := p;
      while cur != null
        invariant cur == null ==> NearestException(TableOf(t), p) == None
        invariant cur != null ==> At(t, q) == cur && NearestException(TableOf(t), p) == NearestException(TableOf(t), q)
        decreases if cur == null then 0 else 1 + |q|
      {
        ParentOf(t, q);
        if cur.exceptionHandler != None {
          return cur.exceptionHandler;
        }
        cur := cur.parent;
        q := if q == [] then q else Init(q);
      }
      handler := None;
    }

    method ExtractParamsFromPath(path: string, params: Params, ghost t: Tree, ghost p: Pattern, ghost segments: Pattern)
      returns (extracted: Params)
      requires IsTree(t) && At(t, p) == this
      requires path == Join(segments) && AllSegments(segments) && |segments| == |p|
      ensures extracted == params + ParamsOf(p, segments)
      decreases |p|
    {
      hide HeadAndTailSegment;
      hide IsTree, Join, AllSegments;
      ParentOf(t, p);
      LastOfPath(segments);
      var (pathHead, pathTailSegment) := HeadAndTailSegment(path);
      extracted := params;
      if pathHead != "" {
        extracted := parent.ExtractParamsFromPath(pathHead, extracted, t, Init(p), Init(segments));
      }
      if IsParamNode() {
        extracted := extracted + [(nodeSegment[1..], pathTailSegment)];
      }
    }

    // ----- filling -----

    method SetMethodHandler(verb: string, handler: Handler, ghost t: Tree, ghost p: Pattern) returns (ghost t2: Tree)
      requires IsTree(t) && Stands(t) && At(t, p) == this
      modifies this`methodHandlers
      ensures IsTree(t2) && Stands(t2) && t2.nodes == t.nodes && p in TableOf(t)
      ensures var e := TableOf(t)[p];
              TableOf(t2) == TableOf(t)[p := e.(methodHandlers := e.methodHandlers[verb := handler])]
    {
      hide IsTree, TableOf, Refilled;
      OneNodeEach(t, p);
      methodHandlers := methodHandlers[verb := handler];
      t2 := Refilled(t, p, Content());
      RefilledIsTree(t, p, Content());
      RefilledStands(t, p, Content());
    }

    method AddMiddleware(middleware: Middleware, ghost t: Tree, ghost p: Pattern) returns (ghost t2: Tree)
      requires IsTree(t) && Stands(t) && At(t, p) == this
      modifies this`middlewares
      ensures IsTree(t2) && Stands(t2) && t2.nodes == t.nodes && p in TableOf(t)
      ensures var e := TableOf(t)[p]; TableOf(t2) == TableOf(t)[p := e.(middlewares := e.middlewares + [middleware])]
    {
      hide IsTree, TableOf, Refilled;
      OneNodeEach(t, p);
      middlewares := middlewares + [middleware];
      t2 := Refilled(t, p, Content());
      RefilledIsTree(t, p, Content());
      RefilledStands(t, p, Content());
    }

    method SetNotFoundHandler(handler: Handler, ghost t: Tree, ghost p: Pattern) returns (ghost t2: Tree)
      requires IsTree(t) && Stands(t) && At(t, p) == this
      modifies this`notFoundHandler
      ensures IsTree(t2) && Stands(t2) && t2.nodes == t.nodes && p in TableOf(t)
      ensures TableOf(t2) == TableOf(t)[p := TableOf(t)[p].(notFoundHandler := Some(handler))]
    {
      hide IsTree, TableOf, Refilled;
      OneNodeEach(t, p);
      notFoundHandler := Some(handler);
      t2 := Refilled(t, p, Content());
      RefilledIsTree(t, p, Content());
      RefilledStands(t, p, Content());
    }

    method SetMethodNotAllowedHandler(handler: Handler, ghost t: Tree, ghost p: Pattern) returns (ghost t2: Tree)
      requires IsTree(t) && Stands(t) && At(t, p) == this
      modifies this`methodNotAllowedHandler
      ensures IsTree(t2) && Stands(t2) && t2.nodes == t.nodes && p in TableOf(t)
      ensures TableOf(t2) == TableOf(t)[p := TableOf(t)[p].(methodNotAllowedHandler := Some(handler))]
    {
      hide IsTree, TableOf, Refilled;
      OneNodeEach(t, p);
      methodNotAllowedHandler := Some(handler);
      t2 := Refilled(t, p, Content());
      RefilledIsTree(t, p, Content());
      RefilledStands(t, p, Content());
    }

    method SetErrorHandler(handler: ExceptionHandler, ghost t: Tree, ghost p: Pattern) returns (ghost t2: Tree)
      requires IsTree(t) && Stands(t) && At(t, p) == this
      modifies this`exceptionHandler
      ensures IsTree(t2) && Stands(t2) && t2.nodes == t.nodes && p in TableOf(t)
      ensures TableOf(t2) == TableOf(t)[p := TableOf(t)[p].(exceptionHandler := Some(handler))]
    {
      hide IsTree, TableOf, Refilled;
      OneNodeEach(t, p);
      exceptionHandler := Some(handler);
      t2 := Refilled(t, p, Content());
      RefilledIsTree(t, p, Content());
      RefilledStands(t, p, Content());
    }

    method TakeHandlersAndMiddlewares(other: Node)
      modifies this`methodHandlers, this`methodNotAllowedHandler, this`notFoundHandler
      modifies this`middlewares, this`exceptionHandler
      ensures Held() == old(Held()).(content := old(other.Content()))
    {
      methodHandlers := other.methodHandlers;
      methodNotAllowedHandler := other.methodNotAllowedHandler;
      notFoundHandler := other.notFoundHandler;
      middlewares := other.middlewares;
      exceptionHandler := other.exceptionHandler;
    }

    /** The tree after `TakeHandlersAndMiddlewares`. */
    method TakeAt(other: Node, ghost t: Tree, ghost p: Pattern) returns (ghost t2: Tree)
      requires IsTree(t) && Stands(t) && At(t, p) == this
      modifies this`methodHandlers, this`methodNotAllowedHandler, this`notFoundHandler
      modifies this`middlewares, this`exceptionHandler
      ensures IsTree(t2) && Stands(t2) && t2.nodes == t.nodes
      ensures TableOf(t2) == TableOf(t)[p := old(other.Content())]
    {
      hide IsTree, TableOf, Refilled;
      OneNodeEach(t, p);
      TakeHandlersAndMiddlewares(other);
      t2 := Refilled(t, p, Content());
      RefilledIsTree(t, p, Content());
      RefilledStands(t, p, Content());
    }
  }

  class FindCtx {
    var curDepth: nat
    var bestNodeDepth: nat
    var bestNode: Node?

    constructor ()
      ensures curDepth == 0 && bestNodeDepth == 0 && bestNode == null
    {
      curDepth, bestNodeDepth, bestNode := 0, 0, null;
    }

    ghost predicate Follows(t: Tree, b: Best)
      reads this`bestNodeDepth, this`bestNode
    {
      && bestNodeDepth == b.depth
      && (b.depth > 0 ==> bestNode != null && At(t, b.node) == bestNode)
    }

    method Entry(node: Node, ghost t: Tree, ghost p: Pattern, ghost b: Best)
      requires At(t, p) == node && curDepth == |p| && Follows(t, b) && Stands(t)
      modifies this
      ensures curDepth == old(curDepth) + 1 && Follows(t, Enter(b, p)) && Stands(t)
    {
      curDepth := curDepth + 1;
      if curDepth > bestNodeDepth {
        bestNode := node;
        bestNodeDepth := curDepth;
      }
    }

    method Leave(ghost t: Tree)
      requires curDepth > 0 && Stands(t)
      modifies this`curDepth
      ensures curDepth == old(curDepth) - 1 && Stands(t)
    {
      curDepth := curDepth - 1;
    }
  }

  /** What a node holds. */
  datatype Row = Row(content: Entry, fixed: map<string, Node>, param: map<string, Node>, order: seq<string>)

  const LEAF: Row := Row(EMPTY, map[], map[], [])

  datatype Tree = Tree(nodes: map<Pattern, Node>, rows: map<Pattern, Row>)

  ghost predicate Stands(t: Tree)
    reads Nodes(t)
  {
    t.rows.Keys == t.nodes.Keys && forall p | p in t.nodes :: t.nodes[p].Held() == t.rows[p]
  }

  function At(t: Tree, p: Pattern): Node? {
    if p in t.nodes then t.nodes[p] else null
  }

  ghost function Nodes(t: Tree): set<Node> {
    t.nodes.Values
  }

  /** Every node of `t` is still in its place. */
  ghost predicate Extends(t: Tree, t2: Tree) {
    forall q | q in t.nodes :: q in t2.nodes && t2.nodes[q] == t.nodes[q]
  }

  /** Parent pointers and keys. */
  ghost predicate LinkedUp(nodes: map<Pattern, Node>) {
    && [] in nodes && nodes[[]].parent == null && nodes[[]].nodeSegment == ""
    && (forall p | p in nodes && p != [] ::
          && Init(p) in nodes && nodes[p].parent == nodes[Init(p)]
          && nodes[p].nodeSegment == Last(p) && IsSegment(Last(p)))
    && (forall p, q | p in nodes && q in nodes && nodes[p] == nodes[q] :: p == q)
  }

  /** Child maps that hold exactly the children of `p`, parameters apart, and an order of the parameters. */
  ghost predicate HoldsChildren(nodes: map<Pattern, Node>, p: Pattern, row: Row) {
    && (forall k | k in row.fixed :: !IsParamSegment(k) && p + [k] in nodes && row.fixed[k] == nodes[p + [k]])
    && (forall k | k in row.param :: IsParamSegment(k) && p + [k] in nodes && row.param[k] == nodes[p + [k]])
    && (forall k | p + [k] in nodes :: if IsParamSegment(k) then k in row.param else k in row.fixed)
    && NoDuplicates(row.order) && (forall k :: k in row.order <==> k in row.param)
  }

  ghost predicate IsTree(t: Tree) {
    LinkedUp(t.nodes) && t.rows.Keys == t.nodes.Keys && forall p | p in t.rows :: HoldsChildren(t.nodes, p, t.rows[p])
  }

  ghost function ShapeOf(t: Tree): Shape {
    Shape(t.rows.Keys, map p | p in t.rows :: t.rows[p].order)
  }

  ghost function TableOf(t: Tree): Table {
    map p | p in t.rows :: t.rows[p].content
  }

  lemma OrderIsOfChildren(t: Tree, p: Pattern)
    requires IsTree(t) && p in t.rows
    ensures NoDuplicates(t.rows[p].order)
    ensures forall k :: k in t.rows[p].order <==> IsParamSegment(k) && p + [k] in t.rows
  {
    assert HoldsChildren(t.nodes, p, t.rows[p]);
  }

  lemma ParentThere(t: Tree, p: Pattern)
    requires IsTree(t) && p in t.rows && p != []
    ensures Init(p) in t.rows && Init(p) + [Last(p)] == p
  {
    hide HoldsChildren;
  }

  lemma RootThere(t: Tree)
    requires IsTree(t)
    ensures [] in t.rows
  {
    hide HoldsChildren;
  }

  lemma ShapeValid(t: Tree)
    requires IsTree(t)
    ensures Valid(ShapeOf(t)) && Rooted(TableOf(t))
  {
    hide IsTree;
    var s := ShapeOf(t);
    RootThere(t);
    forall p | p in s.dom
      ensures NoDuplicates(s.order[p]) && forall k | k in s.order[p] :: IsParamSegment(k) && p + [k] in s.dom
    {
      OrderIsOfChildren(t, p);
    }
    forall p | p in s.dom && p != []
      ensures Init(p) in s.dom && (IsParamSegment(Last(p)) ==> Last(p) in s.order[Init(p)])
    {
      ParentThere(t, p);
      OrderIsOfChildren(t, Init(p));
    }
  }

  // ----- a new child -----

  /** The visiting order after an insertion may be any order of the keys. */
  method Rehashed(order: seq<string>, k: string) returns (next: seq<string>)
    requires NoDuplicates(order) && k !in order
    ensures NoDuplicates(next) && forall x :: x in next <==> x in order || x == k
  {
    ghost var appended := order + [k];
    assert NoDuplicates(appended) && Elements(appended) == Elements(order) + {k};
    next :| NoDuplicates(next) && Elements(next) == Elements(order) + {k};
    assert forall x :: x in next <==> x in Elements(next);
    assert forall x :: x in order <==> x in Elements(order);
  }

  function Elements(ks: seq<string>): set<string> {
    set x | x in ks
  }

  function Hung(t: Tree, p: Pattern, k: string, child: Node, row: Row): Tree {
    Tree(t.nodes[p + [k] := child], t.rows[p := row][p + [k] := LEAF])
  }

  ghost predicate Inserted(row: Row, k: string, child: Node, next: Row) {
    && next.content == row.content
    && next.fixed == (if IsParamSegment(k) then row.fixed else row.fixed[k := child])
    && next.param == (if IsParamSegment(k) then row.param[k := child] else row.param)
    && NoDuplicates(next.order) && forall x :: x in next.order <==> x in next.param
  }

  lemma NewKey(t: Tree, p: Pattern, k: string)
    requires IsTree(t) && p in t.nodes && p + [k] !in t.nodes
    ensures NoDuplicates(t.rows[p].order) && k !in t.rows[p].order
    ensures forall x :: x in t.rows[p].order <==> x in t.rows[p].param
    ensures forall q | q in t.nodes && q != p :: t.nodes[q] != t.nodes[p]
  {
    assert HoldsChildren(t.nodes, p, t.rows[p]);
  }

  lemma HungLinkedUp(nodes: map<Pattern, Node>, p: Pattern, k: string, child: Node)
    requires LinkedUp(nodes) && p in nodes && p + [k] !in nodes && IsSegment(k)
    requires child !in nodes.Values && child.parent == nodes[p] && child.nodeSegment == k
    ensures LinkedUp(nodes[p + [k] := child])
  {
    var c, n2 := p + [k], nodes[p + [k] := child];
    assert Init(c) == p && Last(c) == k;
    forall q | q in n2 && q != []
      ensures Init(q) in n2 && n2[q].parent == n2[Init(q)] && n2[q].nodeSegment == Last(q) && IsSegment(Last(q))
    {
      if q != c {
        assert Init(q) in nodes;
      }
    }
  }

  lemma ChildNames(p: Pattern, q: Pattern, k: string, k': string)
    ensures p + [k] == q + [k'] <==> p == q && k == k'
  {
    assert Init(p + [k]) == p && Last(p + [k]) == k;
    assert Init(q + [k']) == q && Last(q + [k']) == k';
  }

  /** The new child is listed by its parent. */
  lemma HungAtParent(nodes: map<Pattern, Node>, p: Pattern, row: Row, k: string, child: Node, next: Row)
    requires HoldsChildren(nodes, p, row) && p + [k] !in nodes && Inserted(row, k, child, next)
    ensures HoldsChildren(nodes[p + [k] := child], p, next)
  {
    forall x
      ensures p + [x] == p + [k] <==> x == k
    {
      ChildNames(p, p, x, k);
    }
  }

  lemma HungElsewhere(nodes: map<Pattern, Node>, p: Pattern, k: string, child: Node, q: Pattern, row: Row)
    requires HoldsChildren(nodes, q, row) && q != p && p + [k] !in nodes
    ensures HoldsChildren(nodes[p + [k] := child], q, row)
  {
    forall x
      ensures q + [x] != p + [k]
    {
      ChildNames(q, p, x, k);
    }
  }

  /** The new child has no children: there were no nodes below a missing one. */
  lemma HungLeaf(nodes: map<Pattern, Node>, p: Pattern, k: string, child: Node)
    requires LinkedUp(nodes) && p in nodes && p + [k] !in nodes
    ensures HoldsChildren(nodes[p + [k] := child], p + [k], LEAF)
  {
    var c := p + [k];
    forall x
      ensures c + [x] !in nodes[c := child]
    {
      assert Init(c + [x]) == c && |c + [x]| != |c|;
    }
  }

  lemma HungIsTree(t: Tree, p: Pattern, k: string, child: Node, next: Row)
    requires IsTree(t) && p in t.nodes && p + [k] !in t.nodes && IsSegment(k)
    requires child !in t.nodes.Values && child.parent == t.nodes[p] && child.nodeSegment == k
    requires Inserted(t.rows[p], k, child, next)
    ensures var t2 := Hung(t, p, k, child, next);
            IsTree(t2) && TableOf(t2) == TableOf(t)[p + [k] := EMPTY]
  {
    hide LinkedUp, HoldsChildren, Inserted, TableOf;
    var t2, c := Hung(t, p, k, child, next), p + [k];
    HungLinkedUp(t.nodes, p, k, child);
    HungLeaf(t.nodes, p, k, child);
    HungAtParent(t.nodes, p, t.rows[p], k, child, next);
    forall q | q in t.rows && q != p
      ensures HoldsChildren(t2.nodes, q, t2.rows[q])
    {
      HungElsewhere(t.nodes, p, k, child, q, t.rows[q]);
    }
    HungTable(t, p, k, child, next);
  }

  lemma HungTable(t: Tree, p: Pattern, k: string, child: Node, next: Row)
    requires p in t.rows && p + [k] !in t.rows && Inserted(t.rows[p], k, child, next)
    ensures TableOf(Hung(t, p, k, child, next)) == TableOf(t)[p + [k] := EMPTY]
  {
  }

  /** A root alone. */
  lemma LoneTree(node: Node)
    requires node.Held() == LEAF && node.parent == null && node.nodeSegment == ""
    ensures var t := Tree(map[[] := node], map[[] := LEAF]);
            IsTree(t) && Stands(t) && At(t, []) == node && Nodes(t) == {node} && TableOf(t) == map[[] := EMPTY]
  {
  }

  lemma HungStands(t: Tree, p: Pattern, k: string, child: Node)
    requires p in t.nodes && p + [k] !in t.nodes && t.rows.Keys == t.nodes.Keys && child.Held() == LEAF
    requires forall q | q in t.nodes && q != p :: t.nodes[q].Held() == t.rows[q]
    ensures Stands(Hung(t, p, k, child, t.nodes[p].Held()))
  {
  }

  // ----- finding or creating -----

  lemma InNodes(t: Tree, p: Pattern, n: Node)
    requires At(t, p) == n
    ensures n in Nodes(t) && p in t.nodes && t.nodes[p] == n
  {
  }

  lemma ChildLookup(t: Tree, p: Pattern, k: string)
    requires IsTree(t) && p in t.nodes
    ensures !IsParamSegment(k) ==> (k in t.rows[p].fixed <==> p + [k] in t.nodes)
    ensures !IsParamSegment(k) && k in t.rows[p].fixed ==> t.rows[p].fixed[k] == t.nodes[p + [k]]
    ensures IsParamSegment(k) ==> (k in t.rows[p].param <==> p + [k] in t.nodes)
    ensures IsParamSegment(k) && k in t.rows[p].param ==> t.rows[p].param[k] == t.nodes[p + [k]]
  {
    assert HoldsChildren(t.nodes, p, t.rows[p]);
  }

  lemma FoundChild(t: Tree, c: Pattern)
    requires IsTree(t) && c in t.nodes
    ensures Extends(t, t) && Nodes(t) == Nodes(t) + {} && Created(TableOf(t), {c}) == TableOf(t)
  {
    hide LinkedUp, HoldsChildren;
  }

  lemma NewChild(t: Tree, c: Pattern, child: Node, t2: Tree)
    requires IsTree(t) && c !in t.nodes && t2.nodes == t.nodes[c := child]
    ensures Extends(t, t2) && Nodes(t2) == Nodes(t) + {child} && Created(TableOf(t), {c}) == TableOf(t)[c := EMPTY]
  {
    hide LinkedUp, HoldsChildren;
    forall n | n in Nodes(t) + {child}
      ensures n in Nodes(t2)
    {
      hide HeadSegmentAndTail, Segments;
      if n == child {
        assert t2.nodes[c] == n;
      } else {
        var p :| p in t.nodes && t.nodes[p] == n;
        assert t2.nodes[p] == n;
      }
    }
  }

  lemma FoundHere(t: Tree, p: Pattern)
    requires IsTree(t) && p in t.nodes
    ensures Extends(t, t) && Nodes(t) == Nodes(t) + {} && p + Segments("") == p
    ensures Created(TableOf(t), Stems(p, Segments(""))) == TableOf(t)
  {
    hide LinkedUp, HoldsChildren;
    assert p + [] == p;
  }

  /** Creating the child and then the rest of the way is creating the whole way. */
  lemma OneStepMore(t: Tree, t1: Tree, t2: Tree, p: Pattern, k: string, tail: Pattern)
    requires IsTree(t) && p in t.nodes && Extends(t, t1) && Extends(t1, t2)
    requires TableOf(t1) == Created(TableOf(t), {p + [k]})
    requires TableOf(t2) == Created(TableOf(t1), Stems(p + [k], tail))
    ensures Extends(t, t2) && p + [k] + tail == p + ([k] + tail)
    ensures TableOf(t2) == Created(TableOf(t), Stems(p, [k] + tail))
  {
    hide TableOf;
    hide IsTree;
    assert p in TableOf(t) by { ParentTable(t, p); }
    CreatedTwice(TableOf(t), p, k, tail);
  }

  lemma ParentTable(t: Tree, p: Pattern)
    requires IsTree(t)
    ensures TableOf(t).Keys == t.nodes.Keys
  {
  }

  lemma CreatedTwice(t: Table, p: Pattern, k: string, tail: Pattern)
    requires p in t
    ensures Created(Created(t, {p + [k]}), Stems(p + [k], tail)) == Created(t, Stems(p, [k] + tail))
  {
    var c := p + [k];
    StemsAre(c, tail);
    assert c in Stems(c, tail) by { assert c <= c <= c + tail; }
    assert ([k] + tail)[1..] == tail;
    assert Stems(p, [k] + tail) == {p} + Stems(c, tail);
  }

  // ----- finding -----

  lemma PathShorter(path: string)
    requires path != ""
    ensures |HeadSegmentAndTail(path).1| < |path|
  {
  }

  /** One unfolding of the search, in the terms of the path. */
  lemma SearchStep(t: Tree, p: Pattern, path: string, b: Best)
    requires IsTree(t) && Stands(t) && p in t.nodes
    ensures path == "" ==> Search(ShapeOf(t), p, Segments(path), b) == (true, Enter(b, p))
    ensures path != "" ==>
              var (head, tail) := HeadSegmentAndTail(path);
              var r := if !IsParamSegment(head) && p + [head] in t.nodes
                       then Search(ShapeOf(t), p + [head], Segments(tail), Enter(b, p)) else (false, Enter(b, p));
              Search(ShapeOf(t), p, Segments(path), b) ==
              if r.0 then r else SearchParams(ShapeOf(t), p, t.nodes[p].paramOrder, Segments(tail), r.1)
  {
    hide LinkedUp, HoldsChildren;
    assert t.nodes[p].Held() == t.rows[p];
    if path != "" {
      SegmentsHead(path);
      var (head, tail) := HeadSegmentAndTail(path);
      var rest := Segments(path);
      assert rest == [head] + Segments(tail);
      assert rest[0] == head && rest[1..] == Segments(tail);
    }
  }

  lemma FixedLookup(t: Tree, p: Pattern, k: string)
    requires IsTree(t) && Stands(t) && p in t.nodes
    ensures k in t.nodes[p].fixedSubtree <==> !IsParamSegment(k) && p + [k] in t.nodes
    ensures k in t.nodes[p].fixedSubtree ==> t.nodes[p].fixedSubtree[k] == At(t, p + [k])
  {
    assert HoldsChildren(t.nodes, p, t.rows[p]);
    assert t.nodes[p].Held() == t.rows[p];
  }

  lemma ParamLookup(t: Tree, p: Pattern)
    requires IsTree(t) && Stands(t) && p in t.nodes
    ensures var n := t.nodes[p];
            forall i | 0 <= i < |n.paramOrder| ::
              n.paramOrder[i] in n.paramSubtree && n.paramSubtree[n.paramOrder[i]] == At(t, p + [n.paramOrder[i]])
  {
    assert HoldsChildren(t.nodes, p, t.rows[p]);
    var n := t.nodes[p];
    assert n.Held() == t.rows[p];
    forall i | 0 <= i < |n.paramOrder|
      ensures n.paramOrder[i] in n.paramSubtree
    {
      assert n.paramOrder[i] in t.rows[p].order;
    }
  }

  lemma SearchNext(s: Shape, p: Pattern, ks: seq<string>, i: nat, rest: Pattern, b: Best)
    requires i < |ks|
    ensures var r := Search(s, p + [ks[i]], rest, b);
            SearchParams(s, p, ks[i..], rest, b) == if r.0 then r else SearchParams(s, p, ks[i + 1..], rest, r.1)
  {
    assert ks[i..][0] == ks[i] && ks[i..][1..] == ks[i + 1..];
  }

  lemma SearchNoMore(s: Shape, p: Pattern, ks: seq<string>, rest: Pattern, b: Best)
    ensures SearchParams(s, p, ks[|ks|..], rest, b) == (false, b)
  {
  }

  // ----- walking up -----

  lemma ParentOf(t: Tree, p: Pattern)
    requires IsTree(t) && p in t.nodes
    ensures p == [] ==> t.nodes[p].parent == null && t.nodes[p].nodeSegment == ""
    ensures p != [] ==> Init(p) in t.nodes && t.nodes[p].parent == t.nodes[Init(p)]
    ensures p != [] ==> t.nodes[p].nodeSegment == Last(p)
  {
  }

  lemma LastOfPath(segments: Pattern)
    requires AllSegments(segments)
    ensures segments == [] ==> HeadAndTailSegment(Join(segments)) == ("", "")
    ensures segments != [] ==> HeadAndTailSegment(Join(segments)) == (Join(Init(segments)), Last(segments))
    ensures segments != [] ==> AllSegments(Init(segments)) && (Join(Init(segments)) == "" <==> |segments| == 1)
  {
    if segments != [] {
      JoinLast(segments);
    }
  }

  // ----- filling -----

  function Refilled(t: Tree, p: Pattern, e: Entry): Tree
    requires p in t.rows
  {
    t.(rows := t.rows[p := t.rows[p].(content := e)])
  }

  lemma RefilledIsTree(t: Tree, p: Pattern, e: Entry)
    requires IsTree(t) && p in t.rows
    ensures IsTree(Refilled(t, p, e)) && TableOf(Refilled(t, p, e)) == TableOf(t)[p := e]
  {
    hide LinkedUp, HoldsChildren;
    SameChildren(t.nodes, p, t.rows[p], e);
  }

  lemma SameChildren(nodes: map<Pattern, Node>, p: Pattern, row: Row, e: Entry)
    ensures HoldsChildren(nodes, p, row) ==> HoldsChildren(nodes, p, row.(content := e))
  {
  }

  lemma RefilledStands(t: Tree, p: Pattern, e: Entry)
    requires t.rows.Keys == t.nodes.Keys && p in t.nodes
    requires forall q | q in t.nodes && q != p :: t.nodes[q].Held() == t.rows[q]
    requires t.nodes[p].Held() == t.rows[p].(content := e)
    ensures Stands(Refilled(t, p, e)) && Refilled(t, p, e).nodes == t.nodes
  {
  }

  lemma OneNodeEach(t: Tree, p: Pattern)
    requires IsTree(t) && p in t.nodes
    ensures forall q | q in t.nodes && q != p :: t.nodes[q] != t.nodes[p]
    ensures t.rows.Keys == t.nodes.Keys == TableOf(t).Keys && TableOf(t)[p] == t.rows[p].content
  {
    hide HoldsChildren;
  }
}
