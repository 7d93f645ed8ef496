/** Closure, reachability and exact sizes of the catalog graph. */
module GraphCounts {
  import opened Json
  import opened Collections
  import opened Names
  import opened CatalogGraph
  import opened GraphLaws

  // ---- closure ----

  /** Every edge runs between nodes. */
  ghost predicate EdgesClosed(g: Graph) {
    forall e :: e in g.edges ==> e.source in g.nodes && e.target in g.nodes
  }

  ghost predicate OneWarehouse(w: WarehouseName, tables: seq<Table>, views: seq<View>) {
    (forall t :: t in tables ==> t.warehouse == w) && (forall v :: v in views ==> v.warehouse == w)
  }

  lemma HasNode(m: map<string, Node>, nodes: set<Node>, n: Node)
    requires Represents(m, nodes) && n in nodes
    ensures n.id in m
  {
  }

  lemma WarehouseIdDetermines(a: string, b: string)
    requires WarehouseId(a) == WarehouseId(b)
    ensures a == b
  {
    assert a == WarehouseId(a)[18..] && b == WarehouseId(b)[18..];
  }

  lemma OnlyOneWarehouseNode(w: WarehouseName, tables: seq<Table>, views: seq<View>, tenant: Tenant, u: string)
    requires Proper(tables, views)
    requires Represents(BuiltGraph(w, tables, views, tenant).nodes, AllNodes(w, tables, views, tenant))
    ensures WarehouseId(u) in BuiltGraph(w, tables, views, tenant).nodes <==> u == w
  {
    hide BuiltGraph, Proper, KindOf, WarehouseId, TableNodes, ViewNodes;
    var nodes, m := AllNodes(w, tables, views, tenant), BuiltGraph(w, tables, views, tenant).nodes;
    var own := WarehouseNode(w, tenant);
    assert own in SpineNodes(w, tenant);
    HasNode(m, nodes, own);
    if WarehouseId(u) in m {
      var n := m[WarehouseId(u)];
      NodeOrigin(n, w, tables, views, tenant);
      WarehouseIdKind(u);
      hide Represents, AllNodes;
      WarehouseOrigin(n, w, tables, views, tenant);
      WarehouseIdDetermines(u, w);
    }
  }

  lemma WarehouseIdKind(u: string)
    ensures KindOf(WarehouseId(u)) == "Warehouse"
  {
    assert WarehouseId(u)[8] == 'w';
  }

  lemma WarehouseOrigin(n: Node, w: WarehouseName, tables: seq<Table>, views: seq<View>, tenant: Tenant)
    requires Origin(n, w, tables, views, tenant) && n.kind == "Warehouse"
    ensures n.id == WarehouseId(w)
  {
    hide WarehouseId, ServerId, ProjectId;
    assert n.kind[0] == 'W' && "Catalog"[0] == 'C' && "Server"[0] == 'S' && "Project"[0] == 'P';
    assert "Namespace"[0] == 'N' && "IcebergTable"[0] == 'I' && "ODRLPolicy"[0] == 'O' && "View"[0] == 'V';
  }

  /** The graph has no dangling edge exactly when every table and view lies in the given warehouse. */
  lemma ClosedIffOneWarehouse(w: WarehouseName, tables: seq<Table>, views: seq<View>, tenant: Tenant)
    requires Proper(tables, views)
    ensures EdgesClosed(BuiltGraph(w, tables, views, tenant)) <==> OneWarehouse(w, tables, views)
  {
    hide BuiltGraph, Unambiguous, NamespaceId, Path, WarehouseId, KindOf;
    ProperIsUnambiguous(w, tables, views, tenant);
    GraphIsItsSets(w, tables, views, tenant);
    var g, nodes := BuiltGraph(w, tables, views, tenant), AllNodes(w, tables, views, tenant);
    OnlyOneWarehouseNode(w, tables, views, tenant, w);
    if OneWarehouse(w, tables, views) {
      forall e | e in g.edges ensures e.source in g.nodes && e.target in g.nodes {
        EdgeEndpoints(w, tables, views, tenant, e);
      }
    } else if t :| t in tables && t.warehouse != w {
      DanglingEdge(w, tables, views, tenant, t.warehouse, Path(t.namespace));
    } else {
      var v :| v in views && v.warehouse != w;
      assert ViewProper(v);
      DanglingEdge(w, tables, views, tenant, v.warehouse, Path(v.namespace));
    }
  }

  lemma DanglingEdge(w: WarehouseName, tables: seq<Table>, views: seq<View>, tenant: Tenant, u: string, path: string)
    requires Proper(tables, views) && ValidName(u) && u != w
    requires Represents(BuiltGraph(w, tables, views, tenant).nodes, AllNodes(w, tables, views, tenant))
    requires BuiltGraph(w, tables, views, tenant).edges == AllEdges(w, tables, views, tenant)
    requires (exists t :: t in tables && t.warehouse == u && Path(t.namespace) == path)
          || (exists v :: v in views && v.warehouse == u && Path(v.namespace) == path)
    ensures !EdgesClosed(BuiltGraph(w, tables, views, tenant))
  {
    OnlyOneWarehouseNode(w, tables, views, tenant, u);
    hide BuiltGraph, Proper, Represents, NamespaceId, WarehouseId, Path;
    var e := Edge(WarehouseId(u), NamespaceId(u, path), "HAS_NAMESPACE");
    assert e in NamespaceEdges(u, path);
    if t :| t in tables && t.warehouse == u && Path(t.namespace) == path {
      assert e in TableEdges(t);
    } else {
      var v :| v in views && v.warehouse == u && Path(v.namespace) == path;
      assert e in ViewEdges(v);
    }
  }

  lemma NamespaceEndpoints(m: map<string, Node>, nodes: set<Node>, w: WarehouseName, path: string, e: Edge)
    requires Represents(m, nodes) && NamespaceNode(w, path) in nodes && CATALOG in m && WarehouseId(w) in m
    requires e in NamespaceEdges(w, path)
    ensures e.source in m && e.target in m
  {
    hide NamespaceId, WarehouseId;
    HasNode(m, nodes, NamespaceNode(w, path));
  }

  lemma EdgeEndpoints(w: WarehouseName, tables: seq<Table>, views: seq<View>, tenant: Tenant, e: Edge)
    requires OneWarehouse(w, tables, views)
    requires Represents(BuiltGraph(w, tables, views, tenant).nodes, AllNodes(w, tables, views, tenant))
    requires e in AllEdges(w, tables, views, tenant)
    ensures var m := BuiltGraph(w, tables, views, tenant).nodes; e.source in m && e.target in m
  {
    hide BuiltGraph, Represents, NamespaceId, WarehouseId, ServerId, ProjectId, PolicyId, Path, NamespaceEdges;
    var m, nodes := BuiltGraph(w, tables, views, tenant).nodes, AllNodes(w, tables, views, tenant);
    SpineIds(m, nodes, w, tables, views, tenant);
    if e in AllTableEdges(tables) {
      var t :| t in tables && e in TableEdges(t);
      var ns := NamespaceNode(t.warehouse, Path(t.namespace));
      assert ns in TableNodes(t) && TableNode(t) in TableNodes(t) && PolicyNode(t) in TableNodes(t);
      HasNode(m, nodes, ns);
      HasNode(m, nodes, TableNode(t));
      HasNode(m, nodes, PolicyNode(t));
      if e in NamespaceEdges(t.warehouse, Path(t.namespace)) {
        NamespaceEndpoints(m, nodes, w, Path(t.namespace), e);
      }
    } else if e in AllViewEdges(views) {
      var v :| v in views && e in ViewEdges(v);
      var ns := NamespaceNode(v.warehouse, Path(v.namespace));
      assert ns in ViewNodes(v) && ViewNode(v) in ViewNodes(v);
      HasNode(m, nodes, ns);
      HasNode(m, nodes, ViewNode(v));
      if e in NamespaceEdges(v.warehouse, Path(v.namespace)) {
        NamespaceEndpoints(m, nodes, w, Path(v.namespace), e);
      }
    }
  }

  lemma SpineIds(m: map<string, Node>, nodes: set<Node>, w: WarehouseName, tables: seq<Table>, views: seq<View>,
                 tenant: Tenant)
    requires Represents(m, nodes) && nodes == AllNodes(w, tables, views, tenant)
    ensures CATALOG in m && ServerId(tenant) in m && ProjectId(tenant) in m && WarehouseId(w) in m
  {
    hide NamespaceId, WarehouseId, ServerId, ProjectId;
    HasNode(m, nodes, CatalogNode());
    HasNode(m, nodes, ServerNode(tenant));
    HasNode(m, nodes, ProjectNode(tenant));
    HasNode(m, nodes, WarehouseNode(w, tenant));
  }

  // ---- reachability ----

  ghost predicate Joined(edges: set<Edge>, a: string, b: string) {
    exists e :: e in edges && e.source == a && e.target == b
  }

  ghost predicate Walk(edges: set<Edge>, path: seq<string>) {
    forall i :: 0 <= i < |path| - 1 ==> Joined(edges, path[i], path[i + 1])
  }

  ghost predicate Reachable(edges: set<Edge>, a: string, b: string) {
    exists path :: path != [] && path[0] == a && path[|path| - 1] == b && Walk(edges, path)
  }

  lemma ReachesItself(edges: set<Edge>, a: string)
    ensures Reachable(edges, a, a)
  {
    assert Walk(edges, [a]);
    assert [a] != [] && [a][0] == a;
  }

  lemma OneStepFurther(edges: set<Edge>, a: string, e: Edge)
    requires Reachable(edges, a, e.source) && e in edges
    ensures Reachable(edges, a, e.target)
  {
    var path :| path != [] && path[0] == a && path[|path| - 1] == e.source && Walk(edges, path);
    var longer := path + [e.target];
    forall i | 0 <= i < |longer| - 1 ensures Joined(edges, longer[i], longer[i + 1]) {
      if i < |path| - 1 {
        assert Joined(edges, path[i], path[i + 1]);
      } else {
        assert e in edges && e.source == longer[i] && e.target == longer[i + 1];
      }
    }
    assert Walk(edges, longer);
  }

  lemma SpineReachable(edges: set<Edge>, w: WarehouseName, tenant: Tenant, n: Node)
    requires SpineEdges(w, tenant) <= edges && n in SpineNodes(w, tenant)
    ensures Reachable(edges, CATALOG, n.id)
  {
    hide Reachable, ServerId, ProjectId, WarehouseId;
    ReachesItself(edges, CATALOG);
    OneStepFurther(edges, CATALOG, Edge(CATALOG, ServerId(tenant), "HAS_SERVER"));
    OneStepFurther(edges, CATALOG, Edge(ServerId(tenant), ProjectId(tenant), "HAS_PROJECT"));
    OneStepFurther(edges, CATALOG, Edge(ProjectId(tenant), WarehouseId(w), "HAS_WAREHOUSE"));
  }

  lemma NamespaceReachable(edges: set<Edge>, w: string, path: string)
    requires NamespaceEdges(w, path) <= edges
    ensures Reachable(edges, CATALOG, NamespaceId(w, path))
  {
    hide Reachable, NamespaceId, WarehouseId;
    ReachesItself(edges, CATALOG);
    OneStepFurther(edges, CATALOG, Edge(CATALOG, NamespaceId(w, path), "HAS_NAMESPACE"));
  }

  /** Every node can be reached from the catalog, whichever warehouses the tables and views lie in. */
  lemma EveryNodeReachable(w: WarehouseName, tables: seq<Table>, views: seq<View>, tenant: Tenant, id: string)
    requires Unambiguous(AllNodes(w, tables, views, tenant))
    requires id in BuiltGraph(w, tables, views, tenant).nodes
    ensures Reachable(BuiltGraph(w, tables, views, tenant).edges, CATALOG, id)
  {
    GraphIsItsSets(w, tables, views, tenant);
    hide BuiltGraph, Unambiguous, Reachable, NamespaceId, PolicyId, Path, NamespaceEdges, SpineNodes, SpineEdges;
    var g := BuiltGraph(w, tables, views, tenant);
    var n := g.nodes[id];
    if n in SpineNodes(w, tenant) {
      SpineReachable(g.edges, w, tenant, n);
    } else if n in AllTableNodes(tables) {
      var t :| t in tables && n in TableNodes(t);
      TableReachable(g.edges, t, n);
    } else {
      var v :| v in views && n in ViewNodes(v);
      ViewReachable(g.edges, v, n);
    }
  }

  lemma TableReachable(edges: set<Edge>, t: Table, n: Node)
    requires n in TableNodes(t) && TableEdges(t) <= edges
    ensures Reachable(edges, CATALOG, n.id)
  {
    hide Reachable, NamespaceId, PolicyId, Path, NamespaceEdges;
    assert TableEdge(t) in TableEdges(t) && PolicyEdge(t) in TableEdges(t);
    NamespaceReachable(edges, t.warehouse, Path(t.namespace));
    OneStepFurther(edges, CATALOG, TableEdge(t));
    OneStepFurther(edges, CATALOG, PolicyEdge(t));
  }

  lemma ViewReachable(edges: set<Edge>, v: View, n: Node)
    requires n in ViewNodes(v) && ViewEdges(v) <= edges
    ensures Reachable(edges, CATALOG, n.id)
  {
    hide Reachable, NamespaceId, Path, NamespaceEdges;
    assert ViewEdge(v) in ViewEdges(v);
    NamespaceReachable(edges, v.warehouse, Path(v.namespace));
    OneStepFurther(edges, CATALOG, ViewEdge(v));
  }

  // ---- sizes ----

  ghost predicate Injective<A(!new), B>(f: A -> B, s: set<A>) {
    forall x, y :: x in s && y in s && f(x) == f(y) ==> x == y
  }

  ghost function Image<A(!new), B>(f: A -> B, s: set<A>): set<B> {
    set x | x in s :: f(x)
  }

  lemma {:induction false} ImageSize<A(!new), B>(f: A -> B, s: set<A>)
    requires Injective(f, s)
    ensures |Image(f, s)| == |s|
    decreases |s|
  {
    if s == {} {
      assert Image(f, s) == {};
    } else {
      var a :| a in s;
      var rest := s - {a};
      ImageSize(f, rest);
      assert Image(f, s) == Image(f, rest) + {f(a)};
    }
  }

  /** The different namespace paths in use. */
  function Paths(tables: seq<Table>, views: seq<View>): set<string> {
    (set t | t in tables :: Path(t.namespace)) + (set v | v in views :: Path(v.namespace))
  }

  function NamespaceNodes(w: string, paths: set<string>): set<Node> {
    set p | p in paths :: NamespaceNode(w, p)
  }

  function TableNodesOf(tables: set<Table>): set<Node> {
    set t | t in tables :: TableNode(t)
  }

  function PolicyNodesOf(tables: set<Table>): set<Node> {
    set t | t in tables :: PolicyNode(t)
  }

  function ViewNodesOf(views: set<View>): set<Node> {
    set v | v in views :: ViewNode(v)
  }

  lemma NodesByKind(w: WarehouseName, tables: seq<Table>, views: seq<View>, tenant: Tenant)
    requires OneWarehouse(w, tables, views)
    ensures AllNodes(w, tables, views, tenant)
         == SpineNodes(w, tenant) + NamespaceNodes(w, Paths(tables, views))
          + TableNodesOf(ToSet(tables)) + PolicyNodesOf(ToSet(tables)) + ViewNodesOf(ToSet(views))
  {
    hide NamespaceId, PolicyId, Path, SpineNodes, ServerId, ProjectId, WarehouseId;
    var byKind := NamespaceNodes(w, Paths(tables, views))
          + TableNodesOf(ToSet(tables)) + PolicyNodesOf(ToSet(tables)) + ViewNodesOf(ToSet(views));
    hide NamespaceNode, TableNode, PolicyNode, ViewNode;
    forall n | n in byKind ensures n in AllTableNodes(tables) + AllViewNodes(views) {
      if n in NamespaceNodes(w, Paths(tables, views)) {
        var p :| p in Paths(tables, views) && n == NamespaceNode(w, p);
        if t :| t in tables && Path(t.namespace) == p {
          assert n in TableNodes(t);
        } else {
          var v :| v in views && Path(v.namespace) == p;
          assert n in ViewNodes(v);
        }
      } else if n in TableNodesOf(ToSet(tables)) + PolicyNodesOf(ToSet(tables)) {
        var t :| t in tables && (n == TableNode(t) || n == PolicyNode(t));
        assert n in TableNodes(t);
      } else {
        var v :| v in views && n == ViewNode(v);
        assert n in ViewNodes(v);
      }
    }
  }

  lemma NamespaceNodesSize(w: string, paths: set<string>)
    ensures |NamespaceNodes(w, paths)| == |paths| && forall n :: n in NamespaceNodes(w, paths) ==> n.kind == "Namespace"
  {
    var f := (p: string) => NamespaceNode(w, p);
    forall p, q | f(p) == f(q) ensures p == q {
      NamespaceNodeDetermines(w, p, w, q);
    }
    hide NamespaceNode;
    ImageSize(f, paths);
    assert NamespaceNodes(w, paths) == Image(f, paths);
    assert forall p :: NamespaceNode(w, p).kind == "Namespace" by { KindOfNamespaces(w); }
  }

  lemma KindOfNamespaces(w: string)
    ensures forall p :: NamespaceNode(w, p).kind == "Namespace"
  {
  }

  lemma TableNodesSize(tables: seq<Table>, views: seq<View>)
    requires Proper(tables, views) && DuplicateFree(tables)
    ensures |TableNodesOf(ToSet(tables))| == |tables|
  {
    var f := (t: Table) => TableNode(t);
    hide TableProper, ViewProper;
    assert Injective(f, ToSet(tables));
    DistinctSize(tables);
    ImageSize(f, ToSet(tables));
    assert TableNodesOf(ToSet(tables)) == Image(f, ToSet(tables));
  }

  lemma PolicyNodeDetermines(t: Table, u: Table)
    requires PolicyNode(t) == PolicyNode(u)
    ensures t.stableId == u.stableId
  {
    assert PolicyNode(t).properties.members[Other("target")] == PolicyNode(u).properties.members[Other("target")];
  }

  lemma PolicyNodesSize(tables: seq<Table>, views: seq<View>)
    requires Proper(tables, views) && DuplicateFree(tables)
    ensures |PolicyNodesOf(ToSet(tables))| == |tables|
  {
    var f := (t: Table) => PolicyNode(t);
    hide TableProper, ViewProper, PolicyNode;
    forall t, u | t in tables && u in tables && PolicyNode(t) == PolicyNode(u) ensures t == u {
      PolicyNodeDetermines(t, u);
    }
    assert Injective(f, ToSet(tables));
    DistinctSize(tables);
    ImageSize(f, ToSet(tables));
    assert PolicyNodesOf(ToSet(tables)) == Image(f, ToSet(tables));
  }

  lemma ViewNodesSize(tables: seq<Table>, views: seq<View>)
    requires Proper(tables, views) && DuplicateFree(views)
    ensures |ViewNodesOf(ToSet(views))| == |views|
  {
    var f := (v: View) => ViewNode(v);
    hide TableProper, ViewProper;
    assert Injective(f, ToSet(views));
    DistinctSize(views);
    ImageSize(f, ToSet(views));
    assert ViewNodesOf(ToSet(views)) == Image(f, ToSet(views));
  }

  lemma SpineSize(w: WarehouseName, tenant: Tenant)
    ensures |SpineNodes(w, tenant)| == 4 && |SpineEdges(w, tenant)| == 3
  {
    hide ServerId, ProjectId, WarehouseId;
    assert "Catalog"[0] == 'C' && "Server"[0] == 'S' && "Project"[0] == 'P' && "Warehouse"[0] == 'W';
    assert "HAS_SERVER"[4] == 'S' && "HAS_PROJECT"[4] == 'P' && "HAS_WAREHOUSE"[4] == 'W';
  }

  lemma MapSize(m: map<string, Node>, nodes: set<Node>)
    requires Represents(m, nodes) && Unambiguous(nodes)
    ensures |m| == |nodes|
  {
    var f := (n: Node) => n.id;
    ImageSize(f, nodes);
    assert m.Keys == Image(f, nodes);
  }

  // ---- parts that cannot overlap ----

  ghost predicate Below<T(!new)>(s: set<T>, rank: T -> int, k: int) {
    forall x :: x in s ==> rank(x) < k
  }

  ghost predicate Ranked<T(!new)>(s: set<T>, rank: T -> int, k: int) {
    forall x :: x in s ==> rank(x) == k
  }

  lemma AddPart<T(!new)>(some: set<T>, part: set<T>, rank: T -> int, k: int)
    requires Below(some, rank, k) && Ranked(part, rank, k)
    ensures Below(some + part, rank, k + 1) && |some + part| == |some| + |part|
  {
    assert some !! part;
  }

  function NodeRank(n: Node): int {
    if n.kind == "" then 0
    else match n.kind[0]
      case 'N' => 1
      case 'I' => 2
      case 'O' => 3
      case 'V' => 4
      case _ => 0
  }

  lemma NodeRanks(w: WarehouseName, tenant: Tenant, paths: set<string>, tables: set<Table>, views: set<View>)
    ensures Below(SpineNodes(w, tenant), NodeRank, 1) && Ranked(NamespaceNodes(w, paths), NodeRank, 1)
    ensures Ranked(TableNodesOf(tables), NodeRank, 2) && Ranked(PolicyNodesOf(tables), NodeRank, 3)
    ensures Ranked(ViewNodesOf(views), NodeRank, 4)
  {
    hide ServerId, ProjectId, WarehouseId, NamespaceId, PolicyId;
  }

  /** Exactly 4 + namespaces + 2·tables + views nodes. */
  lemma NodeCount(w: WarehouseName, tables: seq<Table>, views: seq<View>, tenant: Tenant)
    requires Proper(tables, views) && DuplicateFree(tables) && DuplicateFree(views)
    requires OneWarehouse(w, tables, views)
    ensures |BuiltGraph(w, tables, views, tenant).nodes| == 4 + |Paths(tables, views)| + 2 * |tables| + |views|
  {
    hide BuiltGraph, Proper, OneWarehouse, Represents, Unambiguous, AllNodes, Paths, NamespaceNodes, TableNodesOf,
      PolicyNodesOf, ViewNodesOf, SpineNodes, SpineEdges, Below, Ranked, NodeRank;
    ProperIsUnambiguous(w, tables, views, tenant);
    GraphIsItsSets(w, tables, views, tenant);
    MapSize(BuiltGraph(w, tables, views, tenant).nodes, AllNodes(w, tables, views, tenant));
    NodesByKind(w, tables, views, tenant);
    var paths := Paths(tables, views);
    SpineSize(w, tenant);
    NamespaceNodesSize(w, paths);
    TableNodesSize(tables, views);
    PolicyNodesSize(tables, views);
    ViewNodesSize(tables, views);
    NodeRanks(w, tenant, paths, ToSet(tables), ToSet(views));
    var n1 := SpineNodes(w, tenant) + NamespaceNodes(w, paths);
    AddPart(SpineNodes(w, tenant), NamespaceNodes(w, paths), NodeRank, 1);
    var n2 := n1 + TableNodesOf(ToSet(tables));
    AddPart(n1, TableNodesOf(ToSet(tables)), NodeRank, 2);
    var n3 := n2 + PolicyNodesOf(ToSet(tables));
    AddPart(n2, PolicyNodesOf(ToSet(tables)), NodeRank, 3);
    AddPart(n3, ViewNodesOf(ToSet(views)), NodeRank, 4);
  }

  // ---- edges ----

  function CatalogLink(w: string, path: string): Edge {
    Edge(CATALOG, NamespaceId(w, path), "HAS_NAMESPACE")
  }

  function WarehouseLink(w: string, path: string): Edge {
    Edge(WarehouseId(w), NamespaceId(w, path), "HAS_NAMESPACE")
  }

  function CatalogLinks(w: string, paths: set<string>): set<Edge> {
    set p | p in paths :: CatalogLink(w, p)
  }

  function WarehouseLinks(w: string, paths: set<string>): set<Edge> {
    set p | p in paths :: WarehouseLink(w, p)
  }

  function TableEdgesOf(tables: set<Table>): set<Edge> {
    set t | t in tables :: TableEdge(t)
  }

  function PolicyEdgesOf(tables: set<Table>): set<Edge> {
    set t | t in tables :: PolicyEdge(t)
  }

  function ViewEdgesOf(views: set<View>): set<Edge> {
    set v | v in views :: ViewEdge(v)
  }

  lemma NamespaceEdgesAre(w: WarehouseName)
    ensures forall p :: NamespaceEdges(w, p) == {CatalogLink(w, p), WarehouseLink(w, p)}
  {
    hide NamespaceId, WarehouseId;
  }

  lemma EdgesByKind(w: WarehouseName, tables: seq<Table>, views: seq<View>, tenant: Tenant)
    requires OneWarehouse(w, tables, views)
    ensures AllEdges(w, tables, views, tenant)
         == SpineEdges(w, tenant) + CatalogLinks(w, Paths(tables, views)) + WarehouseLinks(w, Paths(tables, views))
          + TableEdgesOf(ToSet(tables)) + PolicyEdgesOf(ToSet(tables)) + ViewEdgesOf(ToSet(views))
  {
    NamespaceEdgesAre(w);
    hide Path, SpineEdges, NamespaceEdges, CatalogLink, WarehouseLink, TableEdge, PolicyEdge, ViewEdge;
    var paths := Paths(tables, views);
    var byKind := CatalogLinks(w, paths) + WarehouseLinks(w, paths)
          + TableEdgesOf(ToSet(tables)) + PolicyEdgesOf(ToSet(tables)) + ViewEdgesOf(ToSet(views));
    forall e | e in byKind ensures e in AllTableEdges(tables) + AllViewEdges(views) {
      if e in CatalogLinks(w, paths) + WarehouseLinks(w, paths) {
        var p :| p in paths && (e == CatalogLink(w, p) || e == WarehouseLink(w, p));
        assert e in NamespaceEdges(w, p);
        if t :| t in tables && Path(t.namespace) == p {
          assert e in TableEdges(t);
        } else {
          var v :| v in views && Path(v.namespace) == p;
          assert e in ViewEdges(v);
        }
      } else if e in TableEdgesOf(ToSet(tables)) + PolicyEdgesOf(ToSet(tables)) {
        var t :| t in tables && (e == TableEdge(t) || e == PolicyEdge(t));
        assert e in TableEdges(t);
      } else {
        var v :| v in views && e == ViewEdge(v);
        assert e in ViewEdges(v);
      }
    }
    forall e | e in AllTableEdges(tables) + AllViewEdges(views) ensures e in byKind {
      if e in AllTableEdges(tables) {
        var t :| t in tables && e in TableEdges(t);
        assert Path(t.namespace) in paths;
      } else {
        var v :| v in views && e in ViewEdges(v);
        assert Path(v.namespace) in paths;
      }
    }
  }

  lemma LinksSize(w: WarehouseName, paths: set<string>)
    ensures |CatalogLinks(w, paths)| == |paths| && |WarehouseLinks(w, paths)| == |paths|
  {
    var f, g := (p: string) => CatalogLink(w, p), (p: string) => WarehouseLink(w, p);
    hide NamespaceId, WarehouseId;
    forall p, q | NamespaceId(w, p) == NamespaceId(w, q) ensures p == q {
      NamespaceIdDetermines(w, p, w, q);
    }
    assert Injective(f, paths) && Injective(g, paths);
    hide CatalogLink, WarehouseLink;
    ImageSize(f, paths);
    ImageSize(g, paths);
    assert CatalogLinks(w, paths) == Image(f, paths);
    assert WarehouseLinks(w, paths) == Image(g, paths);
  }

  lemma TableEdgesSize(tables: seq<Table>, views: seq<View>)
    requires Proper(tables, views) && DuplicateFree(tables)
    ensures |TableEdgesOf(ToSet(tables))| == |tables| && |PolicyEdgesOf(ToSet(tables))| == |tables|
  {
    var f, g := (t: Table) => TableEdge(t), (t: Table) => PolicyEdge(t);
    hide TableProper, ViewProper, NamespaceId, PolicyId;
    assert Injective(f, ToSet(tables)) && Injective(g, ToSet(tables));
    hide TableEdge, PolicyEdge;
    DistinctSize(tables);
    ImageSize(f, ToSet(tables));
    ImageSize(g, ToSet(tables));
    assert TableEdgesOf(ToSet(tables)) == Image(f, ToSet(tables));
    assert PolicyEdgesOf(ToSet(tables)) == Image(g, ToSet(tables));
  }

  lemma ViewEdgesSize(tables: seq<Table>, views: seq<View>)
    requires Proper(tables, views) && DuplicateFree(views)
    ensures |ViewEdgesOf(ToSet(views))| == |views|
  {
    var f := (v: View) => ViewEdge(v);
    hide TableProper, ViewProper, NamespaceId;
    assert Injective(f, ToSet(views));
    hide ViewEdge;
    DistinctSize(views);
    ImageSize(f, ToSet(views));
    assert ViewEdgesOf(ToSet(views)) == Image(f, ToSet(views));
  }

  /** The kind of an edge, with the namespace links of the catalog apart from those of the warehouse. */
  function EdgeRank(e: Edge): int {
    if |e.kind| < 10 then 0
    else match e.kind[4]
      case 'N' => if |e.source| == |CATALOG| then 1 else 2
      case 'A' => if e.kind[9] == 'T' then 3 else 5
      case 'R' => 4
      case _ => 0
  }

  lemma EdgeRanks(w: WarehouseName, tenant: Tenant, paths: set<string>, tables: set<Table>, views: set<View>)
    ensures Below(SpineEdges(w, tenant), EdgeRank, 1)
    ensures Ranked(CatalogLinks(w, paths), EdgeRank, 1) && Ranked(WarehouseLinks(w, paths), EdgeRank, 2)
    ensures Ranked(TableEdgesOf(tables), EdgeRank, 3) && Ranked(PolicyEdgesOf(tables), EdgeRank, 4)
    ensures Ranked(ViewEdgesOf(views), EdgeRank, 5)
  {
    assert |WarehouseId(w)| > |CATALOG|;
    hide ServerId, ProjectId, WarehouseId, NamespaceId, PolicyId;
  }

  /** Exactly 3 + 2·namespaces + 2·tables + views edges. */
  lemma EdgeCount(w: WarehouseName, tables: seq<Table>, views: seq<View>, tenant: Tenant)
    requires Proper(tables, views) && DuplicateFree(tables) && DuplicateFree(views)
    requires OneWarehouse(w, tables, views)
    ensures |BuiltGraph(w, tables, views, tenant).edges| == 3 + 2 * |Paths(tables, views)| + 2 * |tables| + |views|
  {
    hide BuiltGraph, Proper, OneWarehouse, Represents, Unambiguous, AllNodes, AllEdges, Paths, CatalogLinks,
      WarehouseLinks, TableEdgesOf, PolicyEdgesOf, ViewEdgesOf, SpineNodes, SpineEdges, Below, Ranked, EdgeRank;
    ProperIsUnambiguous(w, tables, views, tenant);
    GraphIsItsSets(w, tables, views, tenant);
    EdgesByKind(w, tables, views, tenant);
    var paths := Paths(tables, views);
    SpineSize(w, tenant);
    LinksSize(w, paths);
    TableEdgesSize(tables, views);
    ViewEdgesSize(tables, views);
    EdgeRanks(w, tenant, paths, ToSet(tables), ToSet(views));
    var e1 := SpineEdges(w, tenant) + CatalogLinks(w, paths);
    AddPart(SpineEdges(w, tenant), CatalogLinks(w, paths), EdgeRank, 1);
    var e2 := e1 + WarehouseLinks(w, paths);
    AddPart(e1, WarehouseLinks(w, paths), EdgeRank, 2);
    var e3 := e2 + TableEdgesOf(ToSet(tables));
    AddPart(e2, TableEdgesOf(ToSet(tables)), EdgeRank, 3);
    var e4 := e3 + PolicyEdgesOf(ToSet(tables));
    AddPart(e3, PolicyEdgesOf(ToSet(tables)), EdgeRank, 4);
    AddPart(e4, ViewEdgesOf(ToSet(views)), EdgeRank, 5);
  }
}
