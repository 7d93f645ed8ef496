/** Properties of the built catalog graph. */
module GraphLaws {
  import opened Json
  import opened Collections
  import opened Text
  import opened Names
  import opened CatalogGraph

  // ---- the graph as sets ----

  function TableNodes(t: Table): set<Node> {
    {NamespaceNode(t.warehouse, Path(t.namespace)), TableNode(t), PolicyNode(t)}
  }

  function TableEdges(t: Table): set<Edge> {
    NamespaceEdges(t.warehouse, Path(t.namespace)) + {TableEdge(t), PolicyEdge(t)}
  }

  function ViewNodes(v: View): set<Node> {
    {NamespaceNode(v.warehouse, Path(v.namespace)), ViewNode(v)}
  }

  function ViewEdges(v: View): set<Edge> {
    NamespaceEdges(v.warehouse, Path(v.namespace)) + {ViewEdge(v)}
  }

  function SpineNodes(w: WarehouseName, tenant: Tenant): set<Node> {
    {CatalogNode(), ServerNode(tenant), ProjectNode(tenant), WarehouseNode(w, tenant)}
  }

  function AllTableNodes(tables: seq<Table>): set<Node> {
    set t, n | t in tables && n in TableNodes(t) :: n
  }

  function AllTableEdges(tables: seq<Table>): set<Edge> {
    set t, e | t in tables && e in TableEdges(t) :: e
  }

  function AllViewNodes(views: seq<View>): set<Node> {
    set v, n | v in views && n in ViewNodes(v) :: n
  }

  function AllViewEdges(views: seq<View>): set<Edge> {
    set v, e | v in views && e in ViewEdges(v) :: e
  }

  function AllNodes(w: WarehouseName, tables: seq<Table>, views: seq<View>, tenant: Tenant): set<Node> {
    SpineNodes(w, tenant) + AllTableNodes(tables) + AllViewNodes(views)
  }

  function AllEdges(w: WarehouseName, tables: seq<Table>, views: seq<View>, tenant: Tenant): set<Edge> {
    SpineEdges(w, tenant) + AllTableEdges(tables) + AllViewEdges(views)
  }

  ghost predicate Unambiguous(nodes: set<Node>) {
    forall a, b :: a in nodes && b in nodes && a.id == b.id ==> a == b
  }

  /** The node map holds exactly the given nodes, each under its id. */
  ghost predicate Represents(m: map<string, Node>, nodes: set<Node>) {
    && (forall n :: n in nodes ==> n.id in m && m[n.id] == n)
    && (forall id :: id in m ==> m[id] in nodes && m[id].id == id)
  }

  /** Every namespace node present brought its edges along. */
  ghost predicate NamespacesLinked(edges: set<Edge>, nodes: set<Node>) {
    forall w, path :: NamespaceNode(w, path) in nodes ==> NamespaceEdges(w, path) <= edges
  }

  ghost predicate Tracks(g: Graph, nodes: set<Node>) {
    Represents(g.nodes, nodes) && NamespacesLinked(g.edges, nodes)
  }

  lemma NamespaceNodeDetermines(w: string, path: string, w': string, path': string)
    requires NamespaceNode(w, path) == NamespaceNode(w', path')
    ensures w == w' && path == path'
  {
    var m, n := NamespaceNode(w, path).properties.members, NamespaceNode(w', path').properties.members;
    assert m[Warehouse] == n[Warehouse] && m[Namespace] == n[Namespace];
  }

  lemma TracksNode(g: Graph, nodes: set<Node>, n: Node)
    requires Tracks(g, nodes) && Unambiguous(nodes + {n}) && n.kind != "Namespace"
    ensures Tracks(AddNode(g, n), nodes + {n}) && AddNode(g, n).edges == g.edges
  {
    hide NamespaceEdges;
    assert forall w, path :: NamespaceNode(w, path) != n;
  }

  lemma TracksNamespace(g: Graph, nodes: set<Node>, w: string, path: string)
    requires Tracks(g, nodes) && Unambiguous(nodes + {NamespaceNode(w, path)})
    ensures Tracks(AddNamespace(g, w, path), nodes + {NamespaceNode(w, path)})
    ensures AddNamespace(g, w, path).edges == g.edges + NamespaceEdges(w, path)
  {
    hide NamespaceEdges;
    var n, after := NamespaceNode(w, path), AddNamespace(g, w, path);
    if n.id in g.nodes {
      assert g.nodes[n.id] == n;
      assert nodes + {n} == nodes;
    } else {
      forall w', path' | NamespaceNode(w', path') in nodes + {n} ensures NamespaceEdges(w', path') <= after.edges {
        if NamespaceNode(w', path') == n {
          NamespaceNodeDetermines(w', path', w, path);
        }
      }
      hide NamespaceNode;
    }
  }

  lemma UnambiguousSubset(some: set<Node>, all: set<Node>)
    requires some <= all && Unambiguous(all)
    ensures Unambiguous(some)
  {
  }

  lemma TracksTable(g: Graph, nodes: set<Node>, t: Table)
    requires Tracks(g, nodes) && Unambiguous(nodes + TableNodes(t))
    ensures Tracks(AddTable(g, t), nodes + TableNodes(t)) && AddTable(g, t).edges == g.edges + TableEdges(t)
  {
    hide Tracks, Unambiguous, NamespaceEdges, AddNode, AddNamespace, Path;
    var path := Path(t.namespace);
    var n0 := nodes + {NamespaceNode(t.warehouse, path)};
    var n1 := n0 + {TableNode(t)};
    var n2 := n1 + {PolicyNode(t)};
    assert n2 == nodes + TableNodes(t);
    UnambiguousSubset(n0, n2);
    UnambiguousSubset(n1, n2);
    TracksNamespace(g, nodes, t.warehouse, path);
    var g0 := AddNamespace(g, t.warehouse, path);
    TracksNode(g0, n0, TableNode(t));
    TracksNode(AddNode(g0, TableNode(t)), n1, PolicyNode(t));
    var g2 := AddNode(AddNode(g0, TableNode(t)), PolicyNode(t));
    TracksEdges(g2, n2, {TableEdge(t), PolicyEdge(t)});
    assert g.edges + NamespaceEdges(t.warehouse, path) + {TableEdge(t), PolicyEdge(t)} == g.edges + TableEdges(t);
  }

  lemma TracksView(g: Graph, nodes: set<Node>, v: View)
    requires Tracks(g, nodes) && Unambiguous(nodes + ViewNodes(v))
    ensures Tracks(AddView(g, v), nodes + ViewNodes(v)) && AddView(g, v).edges == g.edges + ViewEdges(v)
  {
    hide Tracks, Unambiguous, NamespaceEdges, AddNode, AddNamespace, Path;
    var path := Path(v.namespace);
    var n0 := nodes + {NamespaceNode(v.warehouse, path)};
    var n1 := n0 + {ViewNode(v)};
    assert n1 == nodes + ViewNodes(v);
    UnambiguousSubset(n0, n1);
    TracksNamespace(g, nodes, v.warehouse, path);
    var g0 := AddNamespace(g, v.warehouse, path);
    TracksNode(g0, n0, ViewNode(v));
    TracksEdges(AddNode(g0, ViewNode(v)), n1, {ViewEdge(v)});
    assert g.edges + NamespaceEdges(v.warehouse, path) + {ViewEdge(v)} == g.edges + ViewEdges(v);
  }

  lemma TracksEdges(g: Graph, nodes: set<Node>, edges: set<Edge>)
    requires Tracks(g, nodes)
    ensures Tracks(AddEdges(g, edges), nodes)
  {
    hide NamespaceEdges, NamespaceNode;
  }

  lemma TracksSpine(w: WarehouseName, tenant: Tenant)
    requires Unambiguous(SpineNodes(w, tenant))
    ensures Tracks(Spine(w, tenant), SpineNodes(w, tenant)) && Spine(w, tenant).edges == SpineEdges(w, tenant)
  {
    var none: set<Node> := {};
    var empty := Graph(map[], {});
    assert Tracks(empty, none);
    hide Tracks, Unambiguous, AddNode;
    var n0 := none + {CatalogNode()};
    var n1 := n0 + {ServerNode(tenant)};
    var n2 := n1 + {ProjectNode(tenant)};
    var n3 := n2 + {WarehouseNode(w, tenant)};
    assert n3 == SpineNodes(w, tenant);
    UnambiguousSubset(n0, n3);
    UnambiguousSubset(n1, n3);
    UnambiguousSubset(n2, n3);
    var g0 := AddNode(empty, CatalogNode());
    TracksNode(empty, none, CatalogNode());
    TracksNode(g0, n0, ServerNode(tenant));
    var g1 := AddNode(g0, ServerNode(tenant));
    TracksNode(g1, n1, ProjectNode(tenant));
    var g2 := AddNode(g1, ProjectNode(tenant));
    TracksNode(g2, n2, WarehouseNode(w, tenant));
    TracksEdges(AddNode(g2, WarehouseNode(w, tenant)), n3, SpineEdges(w, tenant));
  }

  lemma {:induction false} TracksTables(g: Graph, nodes: set<Node>, tables: seq<Table>)
    requires Tracks(g, nodes) && Unambiguous(nodes + AllTableNodes(tables))
    ensures Tracks(AddTables(g, tables), nodes + AllTableNodes(tables))
    ensures AddTables(g, tables).edges == g.edges + AllTableEdges(tables)
    decreases |tables|
  {
    hide Tracks, Unambiguous, TableNodes, TableEdges, AddTable;
    if tables == [] {
      assert nodes + AllTableNodes(tables) == nodes;
    } else {
      var init, t := tables[..|tables| - 1], tables[|tables| - 1];
      assert tables == init + [t];
      assert AllTableNodes(tables) == AllTableNodes(init) + TableNodes(t);
      assert AllTableEdges(tables) == AllTableEdges(init) + TableEdges(t);
      UnambiguousSubset(nodes + AllTableNodes(init), nodes + AllTableNodes(tables));
      TracksTables(g, nodes, init);
      assert nodes + AllTableNodes(init) + TableNodes(t) == nodes + AllTableNodes(tables);
      TracksTable(AddTables(g, init), nodes + AllTableNodes(init), t);
    }
  }

  lemma {:induction false} TracksViews(g: Graph, nodes: set<Node>, views: seq<View>)
    requires Tracks(g, nodes) && Unambiguous(nodes + AllViewNodes(views))
    ensures Tracks(AddViews(g, views), nodes + AllViewNodes(views))
    ensures AddViews(g, views).edges == g.edges + AllViewEdges(views)
    decreases |views|
  {
    hide Tracks, Unambiguous, ViewNodes, ViewEdges, AddView;
    if views == [] {
      assert nodes + AllViewNodes(views) == nodes;
    } else {
      var init, v := views[..|views| - 1], views[|views| - 1];
      assert views == init + [v];
      assert AllViewNodes(views) == AllViewNodes(init) + ViewNodes(v);
      assert AllViewEdges(views) == AllViewEdges(init) + ViewEdges(v);
      UnambiguousSubset(nodes + AllViewNodes(init), nodes + AllViewNodes(views));
      TracksViews(g, nodes, init);
      assert nodes + AllViewNodes(init) + ViewNodes(v) == nodes + AllViewNodes(views);
      TracksView(AddViews(g, init), nodes + AllViewNodes(init), v);
    }
  }

  /** When no two different nodes share an id, the builder's output is the set of all nodes and the set of
      all edges, although it keeps the first node it meets under an id and links a namespace only once. */
  lemma GraphIsItsSets(w: WarehouseName, tables: seq<Table>, views: seq<View>, tenant: Tenant)
    requires Unambiguous(AllNodes(w, tables, views, tenant))
    ensures var g := BuiltGraph(w, tables, views, tenant);
      Represents(g.nodes, AllNodes(w, tables, views, tenant)) && g.edges == AllEdges(w, tables, views, tenant)
  {
    hide Unambiguous, Represents, NamespacesLinked, AllTableNodes, AllViewNodes, AllTableEdges, AllViewEdges;
    hide SpineNodes, SpineEdges, Spine;
    var n0 := SpineNodes(w, tenant);
    var n1 := n0 + AllTableNodes(tables);
    UnambiguousSubset(n0, AllNodes(w, tables, views, tenant));
    UnambiguousSubset(n1, AllNodes(w, tables, views, tenant));
    TracksSpine(w, tenant);
    TracksTables(Spine(w, tenant), n0, tables);
    TracksViews(AddTables(Spine(w, tenant), tables), n1, views);
  }

  lemma RepresentsUnique(m: map<string, Node>, n: map<string, Node>, nodes: set<Node>)
    requires Represents(m, nodes) && Represents(n, nodes)
    ensures m == n
  {
    assert forall id :: id in m ==> id in n && n[id] == m[id];
    assert forall id :: id in n ==> id in m;
  }

  // ---- well-named inputs ----

  predicate TableProper(t: Table) {
    && ValidNamespace(t.namespace) && ValidName(t.name)
    && t.stableId == StableTableId(t.warehouse, t.namespace, t.name)
    && t.policyId == Some(t.stableId + "#odrl")
  }

  predicate ViewProper(v: View) {
    && ValidName(v.warehouse) && ValidNamespace(v.namespace) && ValidName(v.name)
    && v.stableId == "lakecat:view:" + v.warehouse + ":" + Path(v.namespace) + ":" + v.name
  }

  /** Validated names, ids derived from them, and no stable id used twice. */
  ghost predicate Proper(tables: seq<Table>, views: seq<View>) {
    && (forall t :: t in tables ==> TableProper(t)) && (forall v :: v in views ==> ViewProper(v))
    && (forall t, u :: t in tables && u in tables && t.stableId == u.stableId ==> t == u)
    && (forall v, u :: v in views && u in views && v.stableId == u.stableId ==> v == u)
  }

  /** The kind of a node, read off its id. */
  function KindOf(id: string): string {
    if |id| < 9 then ""
    else match id[8]
      case 'c' => "Catalog"
      case 's' => "Server"
      case 'p' => "Project"
      case 'w' => "Warehouse"
      case 'n' => "Namespace"
      case 'v' => "View"
      case 't' => if '#' in id then "ODRLPolicy" else "IcebergTable"
      case _ => ""
  }

  lemma StableIdHasNoHash(t: Table)
    requires TableProper(t)
    ensures '#' !in t.stableId && |t.stableId| > 14 && t.stableId[8] == 't'
  {
    PathHasNo(t.namespace, '#');
    assert t.stableId[..14] == "lakecat:table:";
    assert '#' !in "lakecat:table:";
    assert t.stableId[8] == "lakecat:table:"[8];
  }

  lemma TableKinds(t: Table)
    requires TableProper(t)
    ensures forall n :: n in TableNodes(t) ==> KindOf(n.id) == n.kind
  {
    StableIdHasNoHash(t);
    assert PolicyId(t)[|t.stableId|] == '#';
    assert NamespaceId(t.warehouse, Path(t.namespace))[8] == 'n';
    hide TableProper, Path, NamespaceId;
  }

  lemma ViewKinds(v: View)
    requires ViewProper(v)
    ensures forall n :: n in ViewNodes(v) ==> KindOf(n.id) == n.kind
  {
    assert NamespaceId(v.warehouse, Path(v.namespace))[8] == 'n';
    assert v.stableId[8] == 'v';
    hide ViewProper, Path, NamespaceId;
  }

  lemma SpineKinds(w: WarehouseName, tenant: Tenant)
    ensures forall n :: n in SpineNodes(w, tenant) ==> KindOf(n.id) == n.kind
  {
    assert ServerId(tenant)[8] == 's' && ProjectId(tenant)[8] == 'p' && WarehouseId(w)[8] == 'w';
  }

  lemma NamespaceIdDetermines(w: string, path: string, w': string, path': string)
    requires ValidName(w) && ValidName(w')
    ensures NamespaceId(w, path) == NamespaceId(w', path') <==> w == w' && path == path'
  {
    if NamespaceId(w, path) == NamespaceId(w', path') {
      assert NamespaceId(w, path) == "lakecat:namespace:" + (w + [':'] + path);
      assert NamespaceId(w', path') == "lakecat:namespace:" + (w' + [':'] + path');
      assert w + [':'] + path == NamespaceId(w, path)[18..];
      assert w' + [':'] + path' == NamespaceId(w', path')[18..];
      HeadsEnd(w, path, w', path', ':');
    }
  }

  /** What a node of the graph is a node of. */
  ghost predicate Origin(n: Node, w: WarehouseName, tables: seq<Table>, views: seq<View>, tenant: Tenant) {
    || n in SpineNodes(w, tenant)
    || (n.kind == "Namespace" && exists u, path :: ValidName(u) && n == NamespaceNode(u, path))
    || (n.kind == "IcebergTable" && exists t :: t in tables && n == TableNode(t))
    || (n.kind == "ODRLPolicy" && exists t :: t in tables && n == PolicyNode(t))
    || (n.kind == "View" && exists v :: v in views && n == ViewNode(v))
  }

  lemma NodeOrigin(n: Node, w: WarehouseName, tables: seq<Table>, views: seq<View>, tenant: Tenant)
    requires Proper(tables, views) && n in AllNodes(w, tables, views, tenant)
    ensures Origin(n, w, tables, views, tenant) && KindOf(n.id) == n.kind
  {
    SpineKinds(w, tenant);
    hide KindOf, SpineNodes, NamespaceId, Path;
    if n in AllTableNodes(tables) {
      var t :| t in tables && n in TableNodes(t);
      assert TableProper(t);
      TableKinds(t);
    } else if n in AllViewNodes(views) {
      var v :| v in views && n in ViewNodes(v);
      assert ViewProper(v);
      ViewKinds(v);
    }
  }

  lemma PolicyIdDetermines(t: Table, u: Table)
    requires TableProper(t) && TableProper(u) && PolicyId(t) == PolicyId(u)
    ensures t.stableId == u.stableId
  {
    hide StableTableId;
    assert t.stableId == PolicyId(t)[..|PolicyId(t)| - 5] && u.stableId == PolicyId(u)[..|PolicyId(u)| - 5];
  }

  lemma SameKindSameNode(a: Node, b: Node, w: WarehouseName, tables: seq<Table>, views: seq<View>, tenant: Tenant)
    requires Proper(tables, views) && a.id == b.id && a.kind == b.kind
    requires Origin(a, w, tables, views, tenant) && Origin(b, w, tables, views, tenant)
    ensures a == b
  {
    hide TableProper, ViewProper, PolicyId, NamespaceId, ServerId, ProjectId, WarehouseId;
    if a.kind == "Namespace" {
      var u, path :| ValidName(u) && a == NamespaceNode(u, path);
      var u', path' :| ValidName(u') && b == NamespaceNode(u', path');
      NamespaceIdDetermines(u, path, u', path');
    } else if a.kind == "IcebergTable" {
      var t :| t in tables && a == TableNode(t);
      var u :| u in tables && b == TableNode(u);
      assert t.stableId == u.stableId;
    } else if a.kind == "ODRLPolicy" {
      var t :| t in tables && a == PolicyNode(t);
      var u :| u in tables && b == PolicyNode(u);
      PolicyIdDetermines(t, u);
    } else if a.kind == "View" {
      var v :| v in views && a == ViewNode(v);
      var u :| u in views && b == ViewNode(u);
      assert v.stableId == u.stableId;
    } else {
      assert a in SpineNodes(w, tenant) && b in SpineNodes(w, tenant);
    }
  }

  /** Well-named inputs never give two different nodes one id. */
  lemma ProperIsUnambiguous(w: WarehouseName, tables: seq<Table>, views: seq<View>, tenant: Tenant)
    requires Proper(tables, views)
    ensures Unambiguous(AllNodes(w, tables, views, tenant))
  {
    hide KindOf, Origin, Proper, AllNodes;
    var nodes := AllNodes(w, tables, views, tenant);
    forall a, b | a in nodes && b in nodes && a.id == b.id ensures a == b {
      NodeOrigin(a, w, tables, views, tenant);
      NodeOrigin(b, w, tables, views, tenant);
      SameKindSameNode(a, b, w, tables, views, tenant);
    }
  }

  /** The graph does not depend on the order of tables and views, nor on repetitions. */
  lemma GraphIgnoresOrder(w: WarehouseName, tables: seq<Table>, tables': seq<Table>,
                          views: seq<View>, views': seq<View>, tenant: Tenant)
    requires Proper(tables, views)
    requires (forall t :: t in tables <==> t in tables') && (forall v :: v in views <==> v in views')
    ensures BuiltGraph(w, tables, views, tenant) == BuiltGraph(w, tables', views', tenant)
  {
    hide TableNodes, TableEdges, ViewNodes, ViewEdges, BuiltGraph, Proper, Unambiguous, Represents;
    ProperIsUnambiguous(w, tables, views, tenant);
    assert AllTableNodes(tables) == AllTableNodes(tables') && AllTableEdges(tables) == AllTableEdges(tables');
    assert AllViewNodes(views) == AllViewNodes(views') && AllViewEdges(views) == AllViewEdges(views');
    hide AllTableNodes, AllTableEdges, AllViewNodes, AllViewEdges;
    GraphIsItsSets(w, tables, views, tenant);
    GraphIsItsSets(w, tables', views', tenant);
    RepresentsUnique(BuiltGraph(w, tables, views, tenant).nodes, BuiltGraph(w, tables', views', tenant).nodes,
                     AllNodes(w, tables, views, tenant));
  }
}
